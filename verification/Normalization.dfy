/** Normalizing a key argument (src/internal/CacheKeySerialization.ts:10-80), together with what
    `JSON.stringify` then drops: undefined members disappear, undefined and non-finite entries become null. */
module Normalization {
  import opened OrderedMap
  import opened StableSort
  import J = Json

  /** An argument.  A number is its literal text; unsupported are functions, symbols, big integers, invalid
      dates and instances of other classes. */
  datatype Value =
    | Undefined
    | Null
    | Bool(b: bool)
    | Num(text: string)
    | Str(s: string)
    | Arr(items: seq<Value>)
    | Plain(members: seq<Member>)
    | Date(iso: string)
    | Url(href: string)
    | Pattern(source: string, flags: string)
    | MapOf(entries: seq<Pair>)
    | SetOf(values: seq<Value>)
    | Unsupported

  datatype Member = Member(name: string, value: Value)
  datatype Pair = Pair(key: Value, value: Value)

  datatype Normal = Throws | Absent | Kept(json: J.Json)

  type Order = (string, string) -> bool

  predicate Dangerous(name: string) {
    name == "__proto__" || name == "prototype" || name == "constructor"
  }

  predicate Reserved(tag: string) {
    tag == "Date" || tag == "URL" || tag == "RegExp" || tag == "Map" || tag == "Set"
  }

  predicate Tagged(m: Member) {
    m.name == "$type" && m.value.Str? && Reserved(m.value.s)
  }

  function Slot(n: Normal): J.Json {
    if n.Kept? then n.json else J.Null
  }

  /** `JSON.stringify` of a normalized value, as the sort compares it. */
  function Text(n: Normal): string {
    if n.Kept? then J.Stringify(n.json) else "undefined"
  }

  function Present(n: Normal): seq<Entry<string, J.Json>> {
    if n.Kept? then [Entry(Text(n), n.json)] else []
  }

  function Missing(n: Normal): seq<J.Json> {
    if n.Absent? then [J.Null] else []
  }

  function PresentMember(m: Entry<string, Normal>): seq<Entry<string, J.Json>> {
    if m.item.Kept? then [Entry(m.key, m.item.json)] else []
  }

  function PairEntry(p: Entry<Normal, Normal>): seq<Entry<string, J.Json>> {
    [Entry(Text(p.key), J.Arr([Slot(p.key), Slot(p.item)]))]
  }

  function Slots(ns: seq<Normal>): (r: seq<J.Json>)
    ensures |r| == |ns| && forall i :: 0 <= i < |ns| ==> r[i] == Slot(ns[i])
  {
    seq(|ns|, i requires 0 <= i < |ns| => Slot(ns[i]))
  }

  function Items(xs: seq<Entry<string, J.Json>>): (r: seq<J.Json>)
    ensures |r| == |xs| && forall i :: 0 <= i < |xs| ==> r[i] == xs[i].item
  {
    seq(|xs|, i requires 0 <= i < |xs| => xs[i].item)
  }

  function Fields(xs: seq<Entry<string, J.Json>>): (r: seq<J.Field>)
    ensures |r| == |xs| && forall i :: 0 <= i < |xs| ==> r[i] == J.Field(xs[i].key, xs[i].item)
  {
    seq(|xs|, i requires 0 <= i < |xs| => J.Field(xs[i].key, xs[i].item))
  }

  function Native(tag: string, name: string, value: J.Json): Normal {
    Kept(J.Obj([J.Field("$type", J.Str(tag)), J.Field(name, value)]))
  }

  /** An object of its normalized members, a map of its entries and a set of its elements. */
  function PlainNormal(ns: seq<Entry<string, Normal>>): Normal {
    if exists m :: m in ns && m.item.Throws? then Throws
    else Kept(J.Obj(Fields(Sort(NameLess, FlatMap(PresentMember, ns)))))
  }

  function MapNormal(less: Order, ns: seq<Entry<Normal, Normal>>): Normal {
    if exists p :: p in ns && (p.key.Throws? || p.item.Throws?) then Throws
    else Native("Map", "entries", J.Arr(Items(Sort(less, FlatMap(PairEntry, ns)))))
  }

  function SetNormal(less: Order, ns: seq<Normal>): Normal {
    if Throws in ns then Throws
    else Native("Set", "values", J.Arr(Items(Sort(less, FlatMap(Present, ns))) + FlatMap(Missing, ns)))
  }

  /** `normalizeValue`; `less` is the order of `localeCompare`. */
  function Normalize(less: Order, v: Value): Normal
    decreases v, 0
  {
    match v
    case Undefined => Absent
    case Null => Kept(J.Null)
    case Bool(b) => Kept(J.Bool(b))
    case Num(text) => Kept(if J.NumberText(text) then J.Num(text) else J.Null)
    case Str(s) => Kept(J.Str(s))
    case Arr(items) =>
      var ns := NormalizeAll(less, items);
      if Throws in ns then Throws else Kept(J.Arr(Slots(ns)))
    case Plain(members) =>
      if exists m :: m in members && Tagged(m) then Throws
      else
        PlainNormal(NormalizeMembers(less, members))
    case Date(iso) => Native("Date", "value", J.Str(iso))
    case Url(href) => Native("URL", "value", J.Str(href))
    case Pattern(source, flags) =>
      Kept(J.Obj([J.Field("$type", J.Str("RegExp")), J.Field("source", J.Str(source)), J.Field("flags", J.Str(flags))]))
    case MapOf(entries) => MapNormal(less, NormalizePairs(less, entries))
    case SetOf(values) => SetNormal(less, NormalizeAll(less, values))
    case Unsupported => Throws
  }

  function NormalizeAll(less: Order, vs: seq<Value>): (r: seq<Normal>)
    decreases vs, 0
  {
    if vs == [] then [] else [Normalize(less, vs[0])] + NormalizeAll(less, vs[1..])
  }

  function NormalizePairs(less: Order, es: seq<Pair>): (r: seq<Entry<Normal, Normal>>)
    decreases es, 0
  {
    if es == [] then [] else [NormalizePair(less, es[0])] + NormalizePairs(less, es[1..])
  }

  function NormalizePair(less: Order, e: Pair): Entry<Normal, Normal>
    decreases e, 0
  {
    Entry(Normalize(less, e.key), Normalize(less, e.value))
  }

  function NormalizeMembers(less: Order, ms: seq<Member>): (r: seq<Entry<string, Normal>>)
    decreases ms, 0
  {
    if ms == [] then []
    else
      (if Dangerous(ms[0].name) then [] else [Entry(ms[0].name, Normalize(less, ms[0].value))])
      + NormalizeMembers(less, ms[1..])
  }

  // ---- the order of an object's keys ----

  /** The default order of `sort`, by character. */
  predicate LexLess(a: string, b: string) {
    b != "" && (a == "" || a[0] < b[0] || (a[0] == b[0] && LexLess(a[1..], b[1..])))
  }

  /** An array index, which an object enumerates before all other keys. */
  predicate IsIndex(s: string) {
    && s != "" && (forall i :: 0 <= i < |s| ==> '0' <= s[i] <= '9') && (s[0] == '0' ==> |s| == 1)
    && (|s| < 10 || (|s| == 10 && !LexLess("4294967294", s)))
  }

  predicate NameLess(a: string, b: string) {
    if IsIndex(a) != IsIndex(b) then IsIndex(a)
    else if IsIndex(a) && |a| != |b| then |a| < |b|
    else LexLess(a, b)
  }

  lemma {:induction false} LexIrreflexive(a: string)
    ensures !LexLess(a, a)
  {
    if a == "" {
    } else {
      LexIrreflexive(a[1..]);
    }
  }

  lemma {:induction false} LexTransitive(a: string, b: string, c: string)
    requires LexLess(a, b) && LexLess(b, c)
    ensures LexLess(a, c)
  {
    if a != "" && a[0] == b[0] == c[0] {
      LexTransitive(a[1..], b[1..], c[1..]);
    }
  }

  lemma {:induction false} LexConnected(a: string, b: string)
    requires a != b
    ensures LexLess(a, b) || LexLess(b, a)
  {
    if a != "" && b != "" && a[0] == b[0] {
      assert a == [a[0]] + a[1..] && b == [b[0]] + b[1..];
      LexConnected(a[1..], b[1..]);
    }
  }

  /** Enumeration order is a strict total order on names. */
  lemma NamesAreOrdered()
    ensures Total(NameLess)
  {
    forall a ensures !NameLess(a, a) { LexIrreflexive(a); }
    forall a, b, c | NameLess(a, b) && NameLess(b, c)
      ensures NameLess(a, c)
    {
      if LexLess(a, b) && LexLess(b, c) {
        LexTransitive(a, b, c);
      }
    }
    forall a, b | a != b
      ensures NameLess(a, b) || NameLess(b, a)
    {
      LexConnected(a, b);
    }
  }

  // ---- normal forms are JSON values ----

  ghost predicate ProperNormal(n: Normal) {
    n.Kept? ==> J.Proper(n.json)
  }

  lemma {:induction false} FlatMapSource<A, B>(f: A -> seq<B>, xs: seq<A>, y: B) returns (x: A)
    requires y in FlatMap(f, xs)
    ensures x in xs && y in f(x)
  {
    if y in f(xs[0]) {
      x := xs[0];
    } else {
      x := FlatMapSource(f, xs[1..], y);
    }
  }

  /** Whatever is kept is a well-formed JSON value. */
  lemma {:induction false} NormalIsProper(less: Order, v: Value)
    ensures ProperNormal(Normalize(less, v))
    decreases v, 0
  {
    match v
    case Arr(items) =>
      AllProper(less, items);
      var ns := NormalizeAll(less, items);
      forall i | 0 <= i < |ns| ensures J.Proper(Slots(ns)[i]) { assert ns[i] in ns; }
    case Plain(members) =>
      MembersProper(less, members);
      FieldsProper(NormalizeMembers(less, members));
    case MapOf(entries) =>
      PairsProper(less, entries);
      SortedPairsProper(less, NormalizePairs(less, entries));
    case SetOf(values) =>
      AllProper(less, values);
      SortedSetProper(less, NormalizeAll(less, values));
    case _ =>
  }

  lemma {:induction false} AllProper(less: Order, vs: seq<Value>)
    ensures forall n :: n in NormalizeAll(less, vs) ==> ProperNormal(n)
    decreases vs, 0
  {
    if vs == [] {
    } else {
      NormalIsProper(less, vs[0]);
      AllProper(less, vs[1..]);
    }
  }

  lemma {:induction false} PairsProper(less: Order, es: seq<Pair>)
    ensures forall p :: p in NormalizePairs(less, es) ==> ProperNormal(p.key) && ProperNormal(p.item)
    decreases es, 0
  {
    if es == [] {
    } else {
      PairProper(less, es[0]);
      PairsProper(less, es[1..]);
    }
  }

  lemma {:induction false} PairProper(less: Order, e: Pair)
    ensures ProperNormal(NormalizePair(less, e).key) && ProperNormal(NormalizePair(less, e).item)
    decreases e, 0
  {
    NormalIsProper(less, e.key);
    NormalIsProper(less, e.value);
  }

  lemma {:induction false} MembersProper(less: Order, ms: seq<Member>)
    ensures forall m :: m in NormalizeMembers(less, ms) ==> ProperNormal(m.item)
    decreases ms, 0
  {
    if ms == [] {
    } else {
      NormalIsProper(less, ms[0].value);
      MembersProper(less, ms[1..]);
    }
  }

  lemma InSorted(less: Order, xs: seq<Entry<string, J.Json>>)
    ensures forall x :: x in Sort(less, xs) ==> x in xs
  {
    SortPermutes(less, xs);
    forall x | x in Sort(less, xs) ensures x in xs { assert x in multiset(xs); }
  }

  lemma FieldsProper(ns: seq<Entry<string, Normal>>)
    requires forall m :: m in ns ==> ProperNormal(m.item)
    ensures J.Proper(J.Obj(Fields(Sort(NameLess, FlatMap(PresentMember, ns)))))
  {
    var xs := FlatMap(PresentMember, ns);
    InSorted(NameLess, xs);
    forall x | x in xs ensures J.Proper(x.item) { var m := FlatMapSource(PresentMember, ns, x); }
    forall i | 0 <= i < |Sort(NameLess, xs)| ensures J.Proper(Sort(NameLess, xs)[i].item) {
      assert Sort(NameLess, xs)[i] in xs;
    }
  }

  lemma SortedPairsProper(less: Order, ns: seq<Entry<Normal, Normal>>)
    requires forall p :: p in ns ==> ProperNormal(p.key) && ProperNormal(p.item)
    ensures J.Proper(J.Arr(Items(Sort(less, FlatMap(PairEntry, ns)))))
  {
    var xs := FlatMap(PairEntry, ns);
    InSorted(less, xs);
    forall x | x in xs ensures J.Proper(x.item) { var p := FlatMapSource(PairEntry, ns, x); }
    forall i | 0 <= i < |Sort(less, xs)| ensures J.Proper(Sort(less, xs)[i].item) {
      assert Sort(less, xs)[i] in xs;
    }
  }

  lemma SortedSetProper(less: Order, ns: seq<Normal>)
    requires forall n :: n in ns ==> ProperNormal(n)
    ensures J.Proper(J.Arr(Items(Sort(less, FlatMap(Present, ns))) + FlatMap(Missing, ns)))
  {
    var xs := FlatMap(Present, ns);
    InSorted(less, xs);
    forall x | x in xs ensures J.Proper(x.item) { var n := FlatMapSource(Present, ns, x); }
    forall i | 0 <= i < |Sort(less, xs)| ensures J.Proper(Sort(less, xs)[i].item) {
      assert Sort(less, xs)[i] in xs;
    }
    forall x | x in FlatMap(Missing, ns) ensures J.Proper(x) { var n := FlatMapSource(Missing, ns, x); }
    forall i | 0 <= i < |FlatMap(Missing, ns)| ensures J.Proper(FlatMap(Missing, ns)[i]) {
      assert FlatMap(Missing, ns)[i] in FlatMap(Missing, ns);
    }
  }

  // ---- plain objects carry no reserved tag ----

  ghost predicate HasTag(fields: seq<J.Field>) {
    exists f :: f in fields && f.name == "$type" && f.value.Str? && Reserved(f.value.s)
  }

  lemma PlainIsUntagged(less: Order, members: seq<Member>)
    requires Normalize(less, Plain(members)).Kept?
    ensures Normalize(less, Plain(members)).json.Obj? && !HasTag(Normalize(less, Plain(members)).json.fields)
  {
    var xs := FlatMap(PresentMember, NormalizeMembers(less, members));
    var fields := Fields(Sort(NameLess, xs));
    forall f | f in fields && f.name == "$type" && f.value.Str?
      ensures !Reserved(f.value.s)
    {
      var i :| 0 <= i < |fields| && fields[i] == f;
      InSorted(NameLess, xs);
      var x := Sort(NameLess, xs)[i];
      var n := FlatMapSource(PresentMember, NormalizeMembers(less, members), x);
      var m := MemberSource(less, members, n);
      OnlyStringsNormalizeToStrings(less, m.value);
      assert !Tagged(m);
    }
  }

  lemma OnlyStringsNormalizeToStrings(less: Order, v: Value)
    requires Normalize(less, v).Kept? && Normalize(less, v).json.Str?
    ensures v == Str(Normalize(less, v).json.s)
  {
  }

  lemma {:induction false} MemberSource(less: Order, ms: seq<Member>, n: Entry<string, Normal>) returns (m: Member)
    requires n in NormalizeMembers(less, ms)
    ensures m in ms && n == Entry(m.name, Normalize(less, m.value))
  {
    if n in NormalizeMembers(less, ms[1..]) {
      m := MemberSource(less, ms[1..], n);
    } else {
      m := ms[0];
    }
  }

  lemma OnlyUndefinedIsAbsent(less: Order, v: Value)
    ensures Normalize(less, v).Absent? <==> v.Undefined?
  {
  }

  // ---- insertion order ----

  lemma {:induction false} AllIsElementwise(less: Order, vs: seq<Value>)
    ensures NormalizeAll(less, vs) == FlatMap(v => [Normalize(less, v)], vs)
  {
    if vs == [] {
    } else {
      AllIsElementwise(less, vs[1..]);
    }
  }

  lemma {:induction false} PairsAreElementwise(less: Order, es: seq<Pair>)
    ensures NormalizePairs(less, es) == FlatMap(e => [NormalizePair(less, e)], es)
  {
    if es == [] {
    } else {
      PairsAreElementwise(less, es[1..]);
    }
  }

  function NormalizeMember(less: Order, m: Member): seq<Entry<string, Normal>> {
    if Dangerous(m.name) then [] else [Entry(m.name, Normalize(less, m.value))]
  }

  lemma {:induction false} MembersAreElementwise(less: Order, ms: seq<Member>)
    ensures NormalizeMembers(less, ms) == FlatMap(m => NormalizeMember(less, m), ms)
  {
    if ms == [] {
    } else {
      MembersAreElementwise(less, ms[1..]);
    }
  }

  lemma SameMembers<A>(xs: seq<A>, ys: seq<A>)
    requires multiset(xs) == multiset(ys)
    ensures forall x :: x in xs <==> x in ys
  {
    forall x
      ensures x in xs <==> x in ys
    {
      assert (x in xs <==> x in multiset(xs)) && (x in ys <==> x in multiset(ys));
    }
  }

  lemma AllEqual<A>(xs: seq<A>, ys: seq<A>, a: A)
    requires multiset(xs) == multiset(ys) && forall x :: x in xs ==> x == a
    ensures xs == ys
  {
    SameLength(xs, ys);
    SameMembers(xs, ys);
    forall i | 0 <= i < |xs| ensures xs[i] == ys[i] { assert xs[i] in xs && ys[i] in ys; }
  }

  lemma AllPermutes(less: Order, vs: seq<Value>, ws: seq<Value>)
    requires multiset(vs) == multiset(ws)
    ensures multiset(NormalizeAll(less, vs)) == multiset(NormalizeAll(less, ws))
  {
    AllIsElementwise(less, vs);
    AllIsElementwise(less, ws);
    FlatMapPermutes(v => [Normalize(less, v)], vs, ws);
  }

  lemma MembersPermute(less: Order, ms: seq<Member>, ws: seq<Member>)
    requires multiset(ms) == multiset(ws)
    ensures multiset(NormalizeMembers(less, ms)) == multiset(NormalizeMembers(less, ws))
  {
    MembersAreElementwise(less, ms);
    MembersAreElementwise(less, ws);
    FlatMapPermutes(m => NormalizeMember(less, m), ms, ws);
  }

  lemma PairsPermute(less: Order, es: seq<Pair>, ws: seq<Pair>)
    requires multiset(es) == multiset(ws)
    ensures multiset(NormalizePairs(less, es)) == multiset(NormalizePairs(less, ws))
  {
    PairsAreElementwise(less, es);
    PairsAreElementwise(less, ws);
    FlatMapPermutes(e => [NormalizePair(less, e)], es, ws);
  }

  lemma {:induction false} FlatMapTarget<A, B>(f: A -> seq<B>, xs: seq<A>, x: A, y: B)
    requires x in xs && y in f(x)
    ensures y in FlatMap(f, xs)
  {
    if x == xs[0] {
    } else {
      FlatMapTarget(f, xs[1..], x, y);
    }
  }

  /** Elements whose texts the comparison ties are one.  Absent elements are not compared. */
  ghost predicate Untied(less: Order, ns: seq<Normal>) {
    forall n, m :: n in ns && m in ns && n.Kept? && m.Kept? && Tied(less, Text(n), Text(m)) ==> n == m
  }

  lemma UntiedIsAlike(less: Order, ns: seq<Normal>)
    requires Untied(less, ns)
    ensures Alike(less, FlatMap(Present, ns))
  {
    var xs := FlatMap(Present, ns);
    forall i, j | 0 <= i < |xs| && 0 <= j < |xs| && Tied(less, xs[i].key, xs[j].key)
      ensures xs[i].item == xs[j].item
    {
      var a := FlatMapSource(Present, ns, xs[i]);
      var b := FlatMapSource(Present, ns, xs[j]);
    }
  }

  /** An order that tells all texts apart ties no two elements. */
  lemma TotalUnties(less: Order, ns: seq<Normal>)
    requires Total(less) && forall n :: n in ns ==> ProperNormal(n)
    ensures Untied(less, ns)
  {
    TotalIffUntied(less);
    forall n, m | n in ns && m in ns && n.Kept? && m.Kept? && Tied(less, Text(n), Text(m))
      ensures n == m
    {
      J.StringifyInjective(n.json, m.json);
    }
  }

  lemma SameItemsShown(xs: seq<Entry<string, J.Json>>, ys: seq<Entry<string, J.Json>>)
    ensures SameItems(xs, ys) <==> Items(xs) == Items(ys)
  {
    if Items(xs) == Items(ys) {
      forall i | 0 <= i < |xs| ensures xs[i].item == ys[i].item { assert Items(xs)[i] == Items(ys)[i]; }
    }
  }

  lemma SortedSetIgnoresOrder(less: Order, ns: seq<Normal>, ms: seq<Normal>)
    requires WeakOrder(less) && multiset(ns) == multiset(ms) && Untied(less, ns)
    ensures Items(Sort(less, FlatMap(Present, ns))) + FlatMap(Missing, ns)
            == Items(Sort(less, FlatMap(Present, ms))) + FlatMap(Missing, ms)
  {
    FlatMapPermutes(Present, ns, ms);
    FlatMapPermutes(Missing, ns, ms);
    UntiedIsAlike(less, ns);
    AlikeSortAlike(less, FlatMap(Present, ns), FlatMap(Present, ms));
    SameItemsShown(Sort(less, FlatMap(Present, ns)), Sort(less, FlatMap(Present, ms)));
    forall x | x in FlatMap(Missing, ns) ensures x == J.Null { var n := FlatMapSource(Missing, ns, x); }
    AllEqual(FlatMap(Missing, ns), FlatMap(Missing, ms), J.Null);
  }

  ghost predicate SetOrderIsIgnored(less: Order, vs: seq<Value>) {
    forall ws :: multiset(ws) == multiset(vs) ==> Normalize(less, SetOf(ws)) == Normalize(less, SetOf(vs))
  }

  lemma SetUnfolds(less: Order, vs: seq<Value>)
    ensures Normalize(less, SetOf(vs)) == SetNormal(less, NormalizeAll(less, vs))
  {
  }

  lemma UntiedSetIgnoresOrder(less: Order, vs: seq<Value>, ws: seq<Value>)
    requires WeakOrder(less) && multiset(ws) == multiset(vs) && Untied(less, NormalizeAll(less, vs))
    ensures Normalize(less, SetOf(ws)) == Normalize(less, SetOf(vs))
  {
    SetUnfolds(less, vs);
    SetUnfolds(less, ws);
    assert SetNormal(less, NormalizeAll(less, vs)) == SetNormal(less, NormalizeAll(less, ws)) by {
      AllPermutes(less, vs, ws);
      SetNormalIgnoresOrder(less, NormalizeAll(less, vs), NormalizeAll(less, ws));
    }
  }

  lemma SetNormalIgnoresOrder(less: Order, ns: seq<Normal>, ms: seq<Normal>)
    requires WeakOrder(less) && multiset(ns) == multiset(ms) && Untied(less, ns)
    ensures SetNormal(less, ns) == SetNormal(less, ms)
  {
    SameMembers(ns, ms);
    SortedSetIgnoresOrder(less, ns, ms);
  }

  lemma SetForm(less: Order, vs: seq<Value>)
    requires Normalize(less, SetOf(vs)).Kept?
    ensures var ns := NormalizeAll(less, vs);
            && Throws !in ns
            && Normalize(less, SetOf(vs))
               == Native("Set", "values", J.Arr(Items(Sort(less, FlatMap(Present, ns))) + FlatMap(Missing, ns)))
  {
  }

  /** With an element first whose text ties with that of another, the set shows which of them came first. */
  lemma FirstElementShows(less: Order, v: Value, vs: seq<Value>, w: Value, ws: seq<Value>)
    requires WeakOrder(less) && multiset([v] + vs) == multiset([w] + ws)
    requires Normalize(less, v).Kept? && Normalize(less, w).Kept? && Normalize(less, v) != Normalize(less, w)
    requires Tied(less, Text(Normalize(less, v)), Text(Normalize(less, w)))
    requires Normalize(less, SetOf([v] + vs)).Kept? && Normalize(less, SetOf([w] + ws)).Kept?
    ensures Normalize(less, SetOf([v] + vs)) != Normalize(less, SetOf([w] + ws))
  {
    SetForm(less, [v] + vs);
    SetForm(less, [w] + ws);
    AllPermutes(less, [v] + vs, [w] + ws);
    assert ([v] + vs)[1..] == vs && ([w] + ws)[1..] == ws;
    FirstNormalShows(less, Normalize(less, v), NormalizeAll(less, vs), Normalize(less, w), NormalizeAll(less, ws));
  }

  lemma FirstNormalShows(less: Order, n: Normal, ns: seq<Normal>, m: Normal, ms: seq<Normal>)
    requires WeakOrder(less) && multiset([n] + ns) == multiset([m] + ms)
    requires n.Kept? && m.Kept? && n != m && Tied(less, Text(n), Text(m))
    ensures Items(Sort(less, FlatMap(Present, [n] + ns))) + FlatMap(Missing, [n] + ns)
            != Items(Sort(less, FlatMap(Present, [m] + ms))) + FlatMap(Missing, [m] + ms)
  {
    assert ([n] + ns)[1..] == ns && ([m] + ms)[1..] == ms;
    var xs, ys := FlatMap(Present, [n] + ns), FlatMap(Present, [m] + ms);
    assert xs == [Entry(Text(n), n.json)] + FlatMap(Present, ns);
    assert ys == [Entry(Text(m), m.json)] + FlatMap(Present, ms);
    FlatMapPermutes(Present, [n] + ns, [m] + ms);
    FirstShows(less, Entry(Text(n), n.json), FlatMap(Present, ns), Entry(Text(m), m.json), FlatMap(Present, ms));
    SameItemsShown(Sort(less, xs), Sort(less, ys));
    SortsTie(less, xs, ys);
    PrefixesDiffer(Items(Sort(less, xs)), Items(Sort(less, ys)),
                   FlatMap(Missing, [n] + ns), FlatMap(Missing, [m] + ms));
  }

  lemma PrefixesDiffer<A>(a: seq<A>, b: seq<A>, c: seq<A>, d: seq<A>)
    requires |a| == |b| && a != b
    ensures a + c != b + d
  {
    assert (a + c)[..|a|] == a && (b + d)[..|b|] == b;
  }

  lemma {:induction false} NormalizedElement(less: Order, vs: seq<Value>, n: Normal) returns (i: nat)
    requires n in NormalizeAll(less, vs)
    ensures i < |vs| && Normalize(less, vs[i]) == n
  {
    if n == Normalize(less, vs[0]) {
      i := 0;
    } else {
      i := NormalizedElement(less, vs[1..], n);
      i := i + 1;
    }
  }

  lemma PermutedSetIsKept(less: Order, vs: seq<Value>, ws: seq<Value>)
    requires Normalize(less, SetOf(vs)).Kept? && multiset(ws) == multiset(vs)
    ensures Normalize(less, SetOf(ws)).Kept?
  {
    AllPermutes(less, vs, ws);
    SameMembers(NormalizeAll(less, vs), NormalizeAll(less, ws));
  }

  /** Of two orders, one with each of two tied elements first, at least one has another normal form. */
  lemma FirstOfTwoElementsShows(less: Order, vs: seq<Value>, i: nat, j: nat)
    requires WeakOrder(less) && Normalize(less, SetOf(vs)).Kept? && i < |vs| && j < |vs|
    requires Normalize(less, vs[i]).Kept? && Normalize(less, vs[j]).Kept?
    requires Normalize(less, vs[i]) != Normalize(less, vs[j])
    requires Tied(less, Text(Normalize(less, vs[i])), Text(Normalize(less, vs[j])))
    ensures !SetOrderIsIgnored(less, vs)
  {
    var a, b := [vs[i]] + (vs[..i] + vs[i+1..]), [vs[j]] + (vs[..j] + vs[j+1..]);
    MovedToFront(vs, i);
    MovedToFront(vs, j);
    PermutedSetIsKept(less, vs, a);
    PermutedSetIsKept(less, vs, b);
    FirstElementShows(less, vs[i], vs[..i] + vs[i+1..], vs[j], vs[..j] + vs[j+1..]);
    assert Normalize(less, SetOf(a)) != Normalize(less, SetOf(b));
  }

  /** A set's normal form ignores insertion order exactly when the comparison ties no two different elements. */
  lemma SetIgnoresOrderIff(less: Order, vs: seq<Value>)
    requires WeakOrder(less) && Normalize(less, SetOf(vs)).Kept?
    ensures SetOrderIsIgnored(less, vs) <==> Untied(less, NormalizeAll(less, vs))
  {
    var ns := NormalizeAll(less, vs);
    if Untied(less, ns) {
      forall ws | multiset(ws) == multiset(vs)
        ensures Normalize(less, SetOf(ws)) == Normalize(less, SetOf(vs))
      {
        UntiedSetIgnoresOrder(less, vs, ws);
      }
    } else {
      var n, m :| n in ns && m in ns && n.Kept? && m.Kept? && Tied(less, Text(n), Text(m)) && n != m;
      var i := NormalizedElement(less, vs, n);
      var j := NormalizedElement(less, vs, m);
      FirstOfTwoElementsShows(less, vs, i, j);
    }
  }

  /** So if the comparison tells all texts apart, insertion order is always ignored. */
  lemma SetIgnoresOrder(less: Order, vs: seq<Value>, ws: seq<Value>)
    requires Total(less) && multiset(vs) == multiset(ws)
    ensures Normalize(less, SetOf(vs)) == Normalize(less, SetOf(ws))
  {
    TotalIffUntied(less);
    AllProper(less, vs);
    TotalUnties(less, NormalizeAll(less, vs));
    UntiedSetIgnoresOrder(less, vs, ws);
  }

  /** And two strings whose texts it ties, as `localeCompare` does for a letter with an accent written in two ways,
      make a set with two normal forms. */
  lemma SetOrderCanMatter(less: Order, a: string, b: string)
    requires WeakOrder(less) && a != b && Tied(less, J.Stringify(J.Str(a)), J.Stringify(J.Str(b)))
    ensures !SetOrderIsIgnored(less, [Str(a), Str(b)])
  {
    var vs := [Str(a), Str(b)];
    assert NormalizeAll(less, [Str(b)]) == [Kept(J.Str(b))];
    assert vs[1..] == [Str(b)];
    assert NormalizeAll(less, vs) == [Kept(J.Str(a))] + [Kept(J.Str(b))];
    FirstOfTwoElementsShows(less, vs, 0, 1);
  }

  /** No two members of an object have one name. */
  ghost predicate UniqueNames(ms: seq<Member>) {
    forall i, j :: 0 <= i < |ms| && 0 <= j < |ms| && ms[i].name == ms[j].name ==> i == j
  }

  /** A plain object's normal form does not depend on insertion order. */
  lemma ObjectIgnoresOrder(less: Order, ms: seq<Member>, ws: seq<Member>)
    requires UniqueNames(ms) && multiset(ms) == multiset(ws)
    ensures Normalize(less, Plain(ms)) == Normalize(less, Plain(ws))
  {
    MembersPermute(less, ms, ws);
    MembersAreDetermined(less, ms);
    SameMembers(ms, ws);
    PlainNormalIgnoresOrder(NormalizeMembers(less, ms), NormalizeMembers(less, ws));
  }

  lemma PlainNormalIgnoresOrder(ns: seq<Entry<string, Normal>>, ms: seq<Entry<string, Normal>>)
    requires multiset(ns) == multiset(ms) && Determined(FlatMap(PresentMember, ns))
    ensures PlainNormal(ns) == PlainNormal(ms)
  {
    SameMembers(ns, ms);
    FlatMapPermutes(PresentMember, ns, ms);
    NamesAreOrdered();
    SortIgnoresOrder(NameLess, FlatMap(PresentMember, ns), FlatMap(PresentMember, ms));
  }

  lemma MembersAreDetermined(less: Order, ms: seq<Member>)
    requires UniqueNames(ms)
    ensures Determined(FlatMap(PresentMember, NormalizeMembers(less, ms)))
  {
    var ns := NormalizeMembers(less, ms);
    var xs := FlatMap(PresentMember, ns);
    forall i, j | 0 <= i < |xs| && 0 <= j < |xs| && xs[i].key == xs[j].key
      ensures xs[i] == xs[j]
    {
      var n := FlatMapSource(PresentMember, ns, xs[i]);
      var m := FlatMapSource(PresentMember, ns, xs[j]);
      var a := MemberSource(less, ms, n);
      var b := MemberSource(less, ms, m);
      assert a.name == b.name;
    }
  }

  /** Entries whose keys the comparison ties have keys and values of one normal form. */
  ghost predicate Consistent(less: Order, es: seq<Pair>) {
    forall i, j :: 0 <= i < |es| && 0 <= j < |es| && KeysTie(less, es[i], es[j]) ==> SameSlots(less, es[i], es[j])
  }

  predicate KeysTie(less: Order, e: Pair, f: Pair) {
    Tied(less, Text(Normalize(less, e.key)), Text(Normalize(less, f.key)))
  }

  predicate SameSlots(less: Order, e: Pair, f: Pair) {
    && Slot(Normalize(less, e.key)) == Slot(Normalize(less, f.key))
    && Slot(Normalize(less, e.value)) == Slot(Normalize(less, f.value))
  }

  /** Entries whose keys have one normal form have values of one normal form. */
  ghost predicate SameKeysSameItems(less: Order, es: seq<Pair>) {
    forall i, j :: 0 <= i < |es| && 0 <= j < |es| && Normalize(less, es[i].key) == Normalize(less, es[j].key) ==>
                     Slot(Normalize(less, es[i].value)) == Slot(Normalize(less, es[j].value))
  }

  /** Where the comparison tells all texts apart, this is all that consistency asks for. */
  lemma ConsistentWhenTotal(less: Order, es: seq<Pair>)
    requires Total(less) && Normalize(less, MapOf(es)).Kept?
    ensures Consistent(less, es) <==> SameKeysSameItems(less, es)
  {
    TotalIffUntied(less);
    forall i, j | 0 <= i < |es| && 0 <= j < |es|
      ensures KeysTie(less, es[i], es[j]) <==> Normalize(less, es[i].key) == Normalize(less, es[j].key)
    {
      if KeysTie(less, es[i], es[j]) {
        KeptPair(less, es, i);
        KeptPair(less, es, j);
        TextTells(less, es[i].key, es[j].key);
      }
    }
    if Consistent(less, es) {
      forall i, j | 0 <= i < |es| && 0 <= j < |es| && Normalize(less, es[i].key) == Normalize(less, es[j].key)
        ensures Slot(Normalize(less, es[i].value)) == Slot(Normalize(less, es[j].value))
      {
        assert KeysTie(less, es[i], es[j]) && SameSlots(less, es[i], es[j]);
      }
    }
  }

  ghost predicate OrderIsIgnored(less: Order, es: seq<Pair>) {
    forall ws :: multiset(ws) == multiset(es) ==> Normalize(less, MapOf(ws)) == Normalize(less, MapOf(es))
  }

  ghost function Entries(less: Order, es: seq<Pair>): seq<Entry<string, J.Json>> {
    FlatMap(PairEntry, NormalizePairs(less, es))
  }

  lemma {:induction false} EntriesAt(less: Order, es: seq<Pair>)
    ensures |Entries(less, es)| == |es|
    ensures forall i :: 0 <= i < |es| ==> [Entries(less, es)[i]] == PairEntry(NormalizePair(less, es[i]))
  {
    if es == [] {
    } else {
      EntriesAt(less, es[1..]);
    }
  }

  lemma EntriesPermute(less: Order, es: seq<Pair>, ws: seq<Pair>)
    requires multiset(es) == multiset(ws)
    ensures multiset(Entries(less, es)) == multiset(Entries(less, ws))
  {
    PairsPermute(less, es, ws);
    FlatMapPermutes(PairEntry, NormalizePairs(less, es), NormalizePairs(less, ws));
  }

  lemma ConsistentIsAlike(less: Order, es: seq<Pair>)
    requires Consistent(less, es)
    ensures Alike(less, Entries(less, es))
  {
    EntriesAt(less, es);
    var xs := Entries(less, es);
    forall i, j | 0 <= i < |xs| && 0 <= j < |xs| && Tied(less, xs[i].key, xs[j].key)
      ensures xs[i].item == xs[j].item
    {
      assert [xs[i]] == PairEntry(NormalizePair(less, es[i])) && [xs[j]] == PairEntry(NormalizePair(less, es[j]));
      assert [xs[i]][0] == xs[i] && [xs[j]][0] == xs[j];
      assert KeysTie(less, es[i], es[j]) && SameSlots(less, es[i], es[j]);
    }
  }

  lemma {:induction false} PairAt(less: Order, es: seq<Pair>, i: nat)
    requires i < |es|
    ensures |NormalizePairs(less, es)| == |es| && NormalizePairs(less, es)[i] == NormalizePair(less, es[i])
  {
    if i > 0 {
      PairAt(less, es[1..], i - 1);
    } else {
      LengthOfPairs(less, es);
    }
  }

  lemma {:induction false} LengthOfPairs(less: Order, es: seq<Pair>)
    ensures |NormalizePairs(less, es)| == |es|
  {
    if es == [] {
    } else {
      LengthOfPairs(less, es[1..]);
    }
  }

  lemma KeptPair(less: Order, es: seq<Pair>, i: nat)
    requires Normalize(less, MapOf(es)).Kept? && i < |es|
    ensures !Normalize(less, es[i].key).Throws? && !Normalize(less, es[i].value).Throws?
  {
    PairAt(less, es, i);
    assert NormalizePairs(less, es)[i] in NormalizePairs(less, es);
  }

  /** The text of a normalized value tells the value. */
  lemma TextTells(less: Order, v: Value, w: Value)
    requires !Normalize(less, v).Throws? && !Normalize(less, w).Throws?
    requires Text(Normalize(less, v)) == Text(Normalize(less, w))
    ensures Normalize(less, v) == Normalize(less, w)
  {
    var n, m := Normalize(less, v), Normalize(less, w);
    NormalIsProper(less, v);
    NormalIsProper(less, w);
    if n.Kept? {
      NotUndefined(n.json);
    }
    if m.Kept? {
      NotUndefined(m.json);
    }
    if n.Kept? && m.Kept? {
      J.StringifyInjective(n.json, m.json);
    }
  }

  lemma NotUndefined(j: J.Json)
    requires J.Proper(j)
    ensures J.Stringify(j) != "undefined"
  {
    J.ReadPrinted(j, "");
  }

  /** The other direction: two entries whose keys tie and that differ show which of them came first. */
  lemma FirstEntryShows(less: Order, e: Pair, es: seq<Pair>, f: Pair, fs: seq<Pair>)
    requires WeakOrder(less) && multiset([e] + es) == multiset([f] + fs)
    requires KeysTie(less, e, f) && !SameSlots(less, e, f)
    ensures Items(Sort(less, Entries(less, [e] + es))) != Items(Sort(less, Entries(less, [f] + fs)))
  {
    var xs, ys := Entries(less, [e] + es), Entries(less, [f] + fs);
    EntriesPermute(less, [e] + es, [f] + fs);
    EntriesAt(less, [e] + es);
    EntriesAt(less, [f] + fs);
    var x, y := xs[0], ys[0];
    assert PairEntry(NormalizePair(less, e)) == [x] && PairEntry(NormalizePair(less, f)) == [y];
    assert [x][0] == x && [y][0] == y;
    assert x.item.items[0] == Slot(Normalize(less, e.key)) && y.item.items[0] == Slot(Normalize(less, f.key));
    assert x.item.items[1] == Slot(Normalize(less, e.value)) && y.item.items[1] == Slot(Normalize(less, f.value));
    assert xs == [x] + xs[1..] && ys == [y] + ys[1..];
    FirstShows(less, x, xs[1..], y, ys[1..]);
    SameItemsShown(Sort(less, xs), Sort(less, ys));
  }

  /** A map's normal form ignores insertion order exactly when no two entries with tied keys differ in the normal
      form of the key or of the value. */
  lemma MapIgnoresOrderIff(less: Order, es: seq<Pair>)
    requires WeakOrder(less) && Normalize(less, MapOf(es)).Kept?
    ensures OrderIsIgnored(less, es) <==> Consistent(less, es)
  {
    if Consistent(less, es) {
      forall ws | multiset(ws) == multiset(es)
        ensures Normalize(less, MapOf(ws)) == Normalize(less, MapOf(es))
      {
        ConsistentMapIgnoresOrder(less, es, ws);
      }
    } else {
      var i: nat, j: nat :| i < |es| && j < |es| && KeysTie(less, es[i], es[j]) && !SameSlots(less, es[i], es[j]);
      FirstOfTwoEntriesShows(less, es, i, j);
    }
  }

  /** Of two orders, one with each of two such entries first, at least one has another normal form. */
  lemma FirstOfTwoEntriesShows(less: Order, es: seq<Pair>, i: nat, j: nat)
    requires WeakOrder(less) && Normalize(less, MapOf(es)).Kept? && i < |es| && j < |es|
    requires KeysTie(less, es[i], es[j]) && !SameSlots(less, es[i], es[j])
    ensures !OrderIsIgnored(less, es)
  {
    var a, b := [es[i]] + (es[..i] + es[i+1..]), [es[j]] + (es[..j] + es[j+1..]);
    MovedToFront(es, i);
    MovedToFront(es, j);
    FirstEntryShows(less, es[i], es[..i] + es[i+1..], es[j], es[..j] + es[j+1..]);
    SameForm(less, es, a);
    SameForm(less, es, b);
    assert Normalize(less, MapOf(a)) != Normalize(less, MapOf(b));
  }

  /** A permutation of an accepted map is accepted too, so its form is that of its sorted entries. */
  lemma SameForm(less: Order, es: seq<Pair>, ws: seq<Pair>)
    requires Normalize(less, MapOf(es)).Kept? && multiset(ws) == multiset(es)
    ensures Normalize(less, MapOf(ws)) == Native("Map", "entries", J.Arr(Items(Sort(less, Entries(less, ws)))))
  {
    PairsPermute(less, es, ws);
    MapNormalKept(less, NormalizePairs(less, es), NormalizePairs(less, ws));
  }

  lemma MapNormalKept(less: Order, ns: seq<Entry<Normal, Normal>>, ms: seq<Entry<Normal, Normal>>)
    requires MapNormal(less, ns).Kept? && multiset(ns) == multiset(ms)
    ensures MapNormal(less, ms) == Native("Map", "entries", J.Arr(Items(Sort(less, FlatMap(PairEntry, ms)))))
  {
    SameMembers(ns, ms);
  }

  lemma ConsistentMapIgnoresOrder(less: Order, es: seq<Pair>, ws: seq<Pair>)
    requires WeakOrder(less) && Normalize(less, MapOf(es)).Kept? && Consistent(less, es) && multiset(ws) == multiset(es)
    ensures Normalize(less, MapOf(ws)) == Normalize(less, MapOf(es))
  {
    EntriesPermute(less, es, ws);
    ConsistentIsAlike(less, es);
    AlikeSortAlike(less, Entries(less, es), Entries(less, ws));
    SameItemsShown(Sort(less, Entries(less, es)), Sort(less, Entries(less, ws)));
    SameForm(less, es, ws);
    SameForm(less, es, es);
  }

  /** Two objects that differ only in a dropped member make two keys of one normal form: this map has two
      normal forms, one for each insertion order. */
  lemma MapOrderCanMatter(less: Order)
    requires WeakOrder(less)
    ensures var key := Plain([]);
            var alike := Plain([Member("x", Undefined)]);
            !OrderIsIgnored(less, [Pair(key, Num("1")), Pair(alike, Num("2"))])
  {
    var key, alike := Plain([]), Plain([Member("x", Undefined)]);
    var es := [Pair(key, Num("1")), Pair(alike, Num("2"))];
    EmptyForms(less);
    NumberForms(less);
    KeptMap(less, es[0], es[1]);
    FirstOfTwoEntriesShows(less, es, 0, 1);
  }

  lemma NumberForms(less: Order)
    ensures Normalize(less, Num("1")) == Kept(J.Num("1")) && Normalize(less, Num("2")) == Kept(J.Num("2"))
  {
  }

  lemma KeptMap(less: Order, e: Pair, f: Pair)
    requires !Normalize(less, e.key).Throws? && !Normalize(less, e.value).Throws?
    requires !Normalize(less, f.key).Throws? && !Normalize(less, f.value).Throws?
    ensures Normalize(less, MapOf([e, f])).Kept?
  {
    PairAt(less, [e, f], 0);
    PairAt(less, [e, f], 1);
  }

  lemma EmptyForms(less: Order)
    ensures Normalize(less, Plain([])) == Kept(J.Obj([]))
    ensures Normalize(less, Plain([Member("x", Undefined)])) == Kept(J.Obj([]))
  {
    assert NormalizeMembers(less, []) == [];
    var ms := [Member("x", Undefined)];
    assert ms[1..] == [];
    assert NormalizeMembers(less, ms) == [Entry("x", Absent)];
    assert FlatMap(PresentMember, [Entry("x", Absent)]) == [];
  }

  // ---- what is refused, and what an object keeps ----

  /** Somewhere in the value, but not under a dangerous name, there is something unsupported or a plain object with a
      reserved tag. */
  ghost predicate Offends(v: Value)
    decreases v
  {
    match v
    case Unsupported => true
    case Arr(items) => exists i :: 0 <= i < |items| && Offends(items[i])
    case SetOf(values) => exists i :: 0 <= i < |values| && Offends(values[i])
    case MapOf(entries) => exists i :: 0 <= i < |entries| && (Offends(entries[i].key) || Offends(entries[i].value))
    case Plain(members) =>
      || (exists i :: 0 <= i < |members| && members[i].name == "$type" && members[i].value.Str?
                      && members[i].value.s in {"Date", "URL", "RegExp", "Map", "Set"})
      || (exists i :: 0 <= i < |members| && !Forbidden(members[i].name) && Offends(members[i].value))
    case _ => false
  }

  predicate Forbidden(name: string) {
    name in {"__proto__", "prototype", "constructor"}
  }

  /** Normalization refuses a value if and only if it offends. */
  lemma {:induction false} ThrowsIff(less: Order, v: Value)
    ensures Normalize(less, v).Throws? <==> Offends(v)
    decreases v, 0
  {
    match v
    case Arr(items) => SomeThrowsIff(less, items);
    case SetOf(values) =>
      SomeThrowsIff(less, values);
      SetUnfolds(less, values);
    case MapOf(entries) =>
      SomePairThrowsIff(less, entries);
      MapThrowsIff(less, entries);
    case Plain(members) =>
      SomeMemberThrowsIff(less, members);
      PlainThrowsIff(less, members);
      PlainNormalThrowsIff(NormalizeMembers(less, members));
      TaggedIff(members);
    case _ =>
  }

  lemma MapThrowsIff(less: Order, es: seq<Pair>)
    ensures Normalize(less, MapOf(es)).Throws? <==> exists p :: p in NormalizePairs(less, es) && PairThrows(p)
  {
    MapNormalThrowsIff(less, NormalizePairs(less, es));
  }

  lemma MapNormalThrowsIff(less: Order, ns: seq<Entry<Normal, Normal>>)
    ensures MapNormal(less, ns).Throws? <==> exists p :: p in ns && PairThrows(p)
  {
    if p :| p in ns && PairThrows(p) {
      assert p.key.Throws? || p.item.Throws?;
    }
    if p :| p in ns && (p.key.Throws? || p.item.Throws?) {
      assert PairThrows(p);
    }
  }

  lemma {:induction false} SomeThrowsIff(less: Order, vs: seq<Value>)
    ensures Throws in NormalizeAll(less, vs) <==> exists i :: 0 <= i < |vs| && Offends(vs[i])
    decreases vs, 0
  {
    if vs == [] {
    } else {
      ThrowsIff(less, vs[0]);
      SomeThrowsIff(less, vs[1..]);
      assert forall i :: 0 < i < |vs| ==> vs[i] == vs[1..][i-1];
    }
  }

  predicate PairThrows(p: Entry<Normal, Normal>) {
    p.key.Throws? || p.item.Throws?
  }

  lemma {:induction false} SomePairThrowsIff(less: Order, es: seq<Pair>)
    ensures (exists p :: p in NormalizePairs(less, es) && PairThrows(p)) <==>
            exists i :: 0 <= i < |es| && (Offends(es[i].key) || Offends(es[i].value))
    decreases es, 0
  {
    if es == [] {
    } else {
      PairThrowsIff(less, es[0]);
      SomePairThrowsIff(less, es[1..]);
      var ns, rest := NormalizePairs(less, es), NormalizePairs(less, es[1..]);
      assert ns == [NormalizePair(less, es[0])] + rest;
      assert forall p :: p in ns <==> p == NormalizePair(less, es[0]) || p in rest;
      assert forall i :: 0 < i < |es| ==> es[i] == es[1..][i-1];
    }
  }

  lemma {:induction false} PairThrowsIff(less: Order, e: Pair)
    ensures PairThrows(NormalizePair(less, e)) <==> Offends(e.key) || Offends(e.value)
    decreases e, 0
  {
    ThrowsIff(less, e.key);
    ThrowsIff(less, e.value);
  }

  lemma {:induction false} SomeMemberThrowsIff(less: Order, ms: seq<Member>)
    ensures (exists m :: m in NormalizeMembers(less, ms) && m.item.Throws?) <==>
            exists i :: 0 <= i < |ms| && !Forbidden(ms[i].name) && Offends(ms[i].value)
    decreases ms, 0
  {
    if ms == [] {
    } else {
      MemberThrowsIff(less, ms[0]);
      SomeMemberThrowsIff(less, ms[1..]);
      var ns, rest := NormalizeMembers(less, ms), NormalizeMembers(less, ms[1..]);
      assert forall m :: m in ns <==> m in rest
                                             || (!Forbidden(ms[0].name)
                                                 && m == Entry(ms[0].name, Normalize(less, ms[0].value)));
      assert forall i :: 0 < i < |ms| ==> ms[i] == ms[1..][i-1];
    }
  }

  lemma {:induction false} MemberThrowsIff(less: Order, m: Member)
    ensures Normalize(less, m.value).Throws? <==> Offends(m.value)
    decreases m, 0
  {
    ThrowsIff(less, m.value);
  }

  lemma PlainThrowsIff(less: Order, ms: seq<Member>)
    ensures Normalize(less, Plain(ms)).Throws? <==>
            (exists m :: m in ms && Tagged(m)) || PlainNormal(NormalizeMembers(less, ms)).Throws?
  {
  }

  lemma PlainNormalThrowsIff(ns: seq<Entry<string, Normal>>)
    ensures PlainNormal(ns).Throws? <==> exists m :: m in ns && m.item.Throws?
  {
  }

  lemma TaggedIff(ms: seq<Member>)
    ensures (exists m :: m in ms && Tagged(m)) <==>
            exists i :: 0 <= i < |ms| && ms[i].name == "$type" && ms[i].value.Str?
                        && ms[i].value.s in {"Date", "URL", "RegExp", "Map", "Set"}
  {
    if exists m :: m in ms && Tagged(m) {
      var m :| m in ms && Tagged(m);
      var i :| 0 <= i < |ms| && ms[i] == m;
      assert ms[i].value.s in {"Date", "URL", "RegExp", "Map", "Set"};
    }
    if i: nat :| i < |ms| && ms[i].name == "$type" && ms[i].value.Str?
                 && ms[i].value.s in {"Date", "URL", "RegExp", "Map", "Set"} {
      assert ms[i] in ms && Tagged(ms[i]);
    }
  }

  lemma FieldsOfSorted(xs: seq<Entry<string, J.Json>>, f: J.Field)
    ensures f in Fields(Sort(NameLess, xs)) <==> Entry(f.name, f.value) in xs
  {
    var sorted := Sort(NameLess, xs);
    SortPermutes(NameLess, xs);
    SameMembers(sorted, xs);
    if Entry(f.name, f.value) in xs {
      var i :| 0 <= i < |sorted| && sorted[i] == Entry(f.name, f.value);
      assert Fields(sorted)[i] == f;
    }
  }

  ghost predicate Contributes(less: Order, m: Member, f: J.Field) {
    !Forbidden(m.name) && m.name == f.name && Normalize(less, m.value) == Kept(f.value)
  }

  lemma PresentIff(less: Order, ms: seq<Member>, f: J.Field)
    ensures Entry(f.name, f.value) in FlatMap(PresentMember, NormalizeMembers(less, ms)) <==>
            exists m :: m in ms && Contributes(less, m, f)
  {
    var ns := NormalizeMembers(less, ms);
    if Entry(f.name, f.value) in FlatMap(PresentMember, ns) {
      var n := FlatMapSource(PresentMember, ns, Entry(f.name, f.value));
      var m := MemberSource(less, ms, n);
      MemberIsForbidden(less, ms, n);
      assert Contributes(less, m, f);
    }
    if m :| m in ms && Contributes(less, m, f) {
      MemberIsThere(less, ms, m);
      FlatMapTarget(PresentMember, ns, Entry(m.name, Normalize(less, m.value)), Entry(f.name, f.value));
    }
  }

  lemma PlainForm(less: Order, ms: seq<Member>)
    requires Normalize(less, Plain(ms)).Kept?
    ensures Normalize(less, Plain(ms))
            == Kept(J.Obj(Fields(Sort(NameLess, FlatMap(PresentMember, NormalizeMembers(less, ms))))))
  {
  }

  /** The fields of an accepted object are exactly its members whose names are not dangerous and whose values are
      present, with the normal forms of those values. */
  lemma ObjectFields(less: Order, ms: seq<Member>, f: J.Field)
    requires Normalize(less, Plain(ms)).Kept?
    ensures Normalize(less, Plain(ms)).json.Obj?
    ensures f in Normalize(less, Plain(ms)).json.fields <==> exists m :: m in ms && Contributes(less, m, f)
  {
    PlainForm(less, ms);
    FieldsOfSorted(FlatMap(PresentMember, NormalizeMembers(less, ms)), f);
    PresentIff(less, ms, f);
  }

  lemma {:induction false} MemberIsForbidden(less: Order, ms: seq<Member>, n: Entry<string, Normal>)
    requires n in NormalizeMembers(less, ms)
    ensures !Forbidden(n.key)
  {
    if n in NormalizeMembers(less, ms[1..]) {
      MemberIsForbidden(less, ms[1..], n);
    }
  }

  lemma {:induction false} MemberIsThere(less: Order, ms: seq<Member>, m: Member)
    requires m in ms && !Forbidden(m.name)
    ensures Entry(m.name, Normalize(less, m.value)) in NormalizeMembers(less, ms)
  {
    if m != ms[0] {
      MemberIsThere(less, ms[1..], m);
    }
  }
}
