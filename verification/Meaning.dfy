/** What a key argument means, and the proof that a normal form keeps all of it.

    The meaning of an argument leaves out insertion order and what JSON drops: lists are ordered, records, maps
    and sets are not; undefined and non-finite numbers are nothing; undefined members do not exist.  It is defined
    on arguments, without reference to normalization, and a second time on JSON values.  The two agree on every
    argument and its normal form, so arguments with one normal form mean the same; and for arguments whose meaning
    can decide a normal form at all, the converse holds. */
module Meaning {
  import opened OrderedMap
  import opened StableSort
  import opened Normalization
  import J = Json

  /** Lists are ordered; records, maps and sets are not.  A map entry is a list of a key and a value. */
  datatype Sense =
    | Nil
    | Truth(b: bool)
    | Number(text: string)
    | Words(s: string)
    | Listing(items: seq<Sense>)
    | Entity(members: multiset<Named>)
    | Instant(iso: string)
    | Address(href: string)
    | Expression(source: string, flags: string)
    | Mapping(entries: multiset<Sense>)
    | Collection(values: multiset<Sense>)

  datatype Named = Named(name: string, sense: Sense)

  /** Undefined and non-finite numbers are nothing, undefined members and dangerous names do not exist. */
  ghost function Denote(v: Value): Sense
    decreases v, 0
  {
    match v
    case Bool(b) => Truth(b)
    case Num(text) => if J.NumberText(text) then Number(text) else Nil
    case Str(s) => Words(s)
    case Arr(items) => Listing(DenoteAll(items))
    case Plain(members) => Entity(multiset(DenoteMembers(members)))
    case Date(iso) => Instant(iso)
    case Url(href) => Address(href)
    case Pattern(source, flags) => Expression(source, flags)
    case MapOf(entries) => Mapping(multiset(DenotePairs(entries)))
    case SetOf(values) => Collection(multiset(DenoteAll(values)))
    case _ => Nil
  }

  ghost function DenoteAll(vs: seq<Value>): seq<Sense>
    decreases vs, 0
  {
    if vs == [] then [] else [Denote(vs[0])] + DenoteAll(vs[1..])
  }

  ghost function DenotePairs(es: seq<Pair>): seq<Sense>
    decreases es, 0
  {
    if es == [] then [] else [DenotePair(es[0])] + DenotePairs(es[1..])
  }

  ghost function DenotePair(e: Pair): Sense
    decreases e, 0
  {
    Listing([Denote(e.key), Denote(e.value)])
  }

  ghost function DenoteMembers(ms: seq<Member>): seq<Named>
    decreases ms, 0
  {
    if ms == [] then []
    else
      (if Dangerous(ms[0].name) || ms[0].value.Undefined? then [] else [Named(ms[0].name, Denote(ms[0].value))])
      + DenoteMembers(ms[1..])
  }

  // ---- the meaning of a normal form ----

  /** A native value says what it is in its first field. */
  predicate IsNative(fields: seq<J.Field>) {
    |fields| >= 2 && fields[0].name == "$type" && fields[0].value.Str? && Reserved(fields[0].value.s)
  }

  function TextOf(f: J.Field): string {
    if f.value.Str? then f.value.s else ""
  }

  ghost function Read(j: J.Json): Sense
    decreases j, 0
  {
    match j
    case Null => Nil
    case Bool(b) => Truth(b)
    case Num(text) => Number(text)
    case Str(s) => Words(s)
    case Arr(items) => Listing(ReadAll(items))
    case Obj(fields) =>
      if !IsNative(fields) then Entity(multiset(ReadFields(fields)))
      else if fields[0].value.s == "Date" then Instant(TextOf(fields[1]))
      else if fields[0].value.s == "URL" then Address(TextOf(fields[1]))
      else if fields[0].value.s == "RegExp" then
        Expression(TextOf(fields[1]), if |fields| > 2 then TextOf(fields[2]) else "")
      else
        var senses := if fields[1].value.Arr? then multiset(ReadAll(fields[1].value.items)) else multiset{};
        if fields[0].value.s == "Map" then Mapping(senses) else Collection(senses)
  }

  ghost function ReadAll(items: seq<J.Json>): seq<Sense>
    decreases items, 0
  {
    if items == [] then [] else [Read(items[0])] + ReadAll(items[1..])
  }

  ghost function ReadFields(fields: seq<J.Field>): seq<Named>
    decreases fields, 0
  {
    if fields == [] then [] else [Named(fields[0].name, Read(fields[0].value))] + ReadFields(fields[1..])
  }

  // ---- elementwise facts ----

  ghost function ReadItem(j: J.Json): seq<Sense> {
    [Read(j)]
  }

  ghost function ReadField(f: J.Field): seq<Named> {
    [Named(f.name, Read(f.value))]
  }

  function ItemOf(e: Entry<string, J.Json>): seq<J.Json> {
    [e.item]
  }

  function FieldOf(e: Entry<string, J.Json>): seq<J.Field> {
    [J.Field(e.key, e.item)]
  }

  lemma {:induction false} ReadAllIsElementwise(items: seq<J.Json>)
    ensures ReadAll(items) == FlatMap(ReadItem, items)
    ensures |ReadAll(items)| == |items| && forall i :: 0 <= i < |items| ==> ReadAll(items)[i] == Read(items[i])
  {
    if items == [] {
    } else {
      ReadAllIsElementwise(items[1..]);
    }
  }

  lemma {:induction false} ReadFieldsIsElementwise(fields: seq<J.Field>)
    ensures ReadFields(fields) == FlatMap(ReadField, fields)
  {
    if fields == [] {
    } else {
      ReadFieldsIsElementwise(fields[1..]);
    }
  }

  lemma ReadAllPermutes(xs: seq<J.Json>, ys: seq<J.Json>)
    requires multiset(xs) == multiset(ys)
    ensures multiset(ReadAll(xs)) == multiset(ReadAll(ys))
  {
    ReadAllIsElementwise(xs);
    ReadAllIsElementwise(ys);
    FlatMapPermutes(ReadItem, xs, ys);
  }

  lemma ReadFieldsPermutes(xs: seq<J.Field>, ys: seq<J.Field>)
    requires multiset(xs) == multiset(ys)
    ensures multiset(ReadFields(xs)) == multiset(ReadFields(ys))
  {
    ReadFieldsIsElementwise(xs);
    ReadFieldsIsElementwise(ys);
    FlatMapPermutes(ReadField, xs, ys);
  }

  lemma {:induction false} ItemsIsElementwise(xs: seq<Entry<string, J.Json>>)
    ensures Items(xs) == FlatMap(ItemOf, xs)
  {
    if xs == [] {
    } else {
      ItemsIsElementwise(xs[1..]);
      assert Items(xs)[1..] == Items(xs[1..]);
    }
  }

  lemma {:induction false} FieldsIsElementwise(xs: seq<Entry<string, J.Json>>)
    ensures Fields(xs) == FlatMap(FieldOf, xs)
  {
    if xs == [] {
    } else {
      FieldsIsElementwise(xs[1..]);
      assert Fields(xs)[1..] == Fields(xs[1..]);
    }
  }

  lemma SortedItems(less: Order, xs: seq<Entry<string, J.Json>>)
    ensures multiset(Items(Sort(less, xs))) == multiset(Items(xs))
  {
    SortPermutes(less, xs);
    ItemsIsElementwise(xs);
    ItemsIsElementwise(Sort(less, xs));
    FlatMapPermutes(ItemOf, Sort(less, xs), xs);
  }

  lemma SortedFields(less: Order, xs: seq<Entry<string, J.Json>>)
    ensures multiset(Fields(Sort(less, xs))) == multiset(Fields(xs))
  {
    SortPermutes(less, xs);
    FieldsIsElementwise(xs);
    FieldsIsElementwise(Sort(less, xs));
    FlatMapPermutes(FieldOf, Sort(less, xs), xs);
  }

  /** What a set keeps and what it replaces by null are together its slots. */
  lemma {:induction false} PresentAndMissing(ns: seq<Normal>)
    requires Throws !in ns
    ensures multiset(Items(FlatMap(Present, ns))) + multiset(FlatMap(Missing, ns)) == multiset(Slots(ns))
  {
    if ns == [] {
    } else {
      PresentAndMissing(ns[1..]);
      SlotsCons(ns);
      PresentCons(ns);
    }
  }

  lemma PresentCons(ns: seq<Normal>)
    requires ns != [] && !ns[0].Throws?
    ensures Items(FlatMap(Present, ns)) ==
            (if ns[0].Kept? then [Slot(ns[0])] else []) + Items(FlatMap(Present, ns[1..]))
    ensures FlatMap(Missing, ns) == (if ns[0].Kept? then [] else [Slot(ns[0])]) + FlatMap(Missing, ns[1..])
  {
    if ns[0].Kept? {
      ItemsCons(Entry(Text(ns[0]), ns[0].json), FlatMap(Present, ns[1..]));
    }
  }

  lemma SlotsCons(ns: seq<Normal>)
    requires ns != []
    ensures Slots(ns) == [Slot(ns[0])] + Slots(ns[1..])
  {
  }

  lemma ReadAllCons(j: J.Json, items: seq<J.Json>)
    ensures ReadAll([j] + items) == [Read(j)] + ReadAll(items)
  {
    assert ([j] + items)[1..] == items;
  }

  lemma ItemsCons(e: Entry<string, J.Json>, xs: seq<Entry<string, J.Json>>)
    ensures Items([e] + xs) == [e.item] + Items(xs)
  {
  }

  lemma FieldsCons(e: Entry<string, J.Json>, xs: seq<Entry<string, J.Json>>)
    ensures ReadFields(Fields([e] + xs)) == [Named(e.key, Read(e.item))] + ReadFields(Fields(xs))
  {
    assert Fields([e] + xs)[1..] == Fields(xs);
  }

  // ---- normal forms keep the meaning ----

  /** Whatever stands for an accepted value in its normal form reads back as what the value means. */
  lemma {:induction false} SlotMeans(less: Order, v: Value)
    requires !Normalize(less, v).Throws?
    ensures Read(Slot(Normalize(less, v))) == Denote(v)
    decreases v, 0
  {
    match v
    case Arr(items) => AllMean(less, items);
    case Plain(members) =>
      PlainIsUntagged(less, members);
      MembersMean(less, members);
      PlainMeans(less, members);
    case MapOf(entries) =>
      SameForm(less, entries, entries);
      PairsMean(less, entries);
      MapItemsRead(less, entries);
      MapMeans(entries, Items(Sort(less, Entries(less, entries))));
    case SetOf(values) =>
      var ns := NormalizeAll(less, values);
      SetForm(less, values);
      AllMean(less, values);
      SetItemsRead(less, ns);
      SetMeans(values, Items(Sort(less, FlatMap(Present, ns))) + FlatMap(Missing, ns));
    case _ =>
  }

  lemma {:induction false} AllMean(less: Order, vs: seq<Value>)
    requires Throws !in NormalizeAll(less, vs)
    ensures ReadAll(Slots(NormalizeAll(less, vs))) == DenoteAll(vs)
    decreases vs, 0
  {
    if vs == [] {
    } else {
      var ns := NormalizeAll(less, vs);
      assert ns[0] in ns && ns[1..] == NormalizeAll(less, vs[1..]);
      SlotMeans(less, vs[0]);
      AllMean(less, vs[1..]);
      SlotsCons(ns);
      ReadAllCons(Slot(ns[0]), Slots(ns[1..]));
    }
  }

  lemma {:induction false} PairsMean(less: Order, es: seq<Pair>)
    requires forall p :: p in NormalizePairs(less, es) ==> !p.key.Throws? && !p.item.Throws?
    ensures ReadAll(Items(Entries(less, es))) == DenotePairs(es)
    decreases es, 0
  {
    if es == [] {
    } else {
      var ns := NormalizePairs(less, es);
      assert ns[0] in ns && ns[1..] == NormalizePairs(less, es[1..]);
      PairMeans(less, es[0]);
      PairsMean(less, es[1..]);
      var rest := Entries(less, es[1..]);
      assert Items(PairEntry(ns[0]) + rest) == Items(PairEntry(ns[0])) + Items(rest);
      assert Items(Entries(less, es))[1..] == Items(rest);
    }
  }

  lemma {:induction false} PairMeans(less: Order, e: Pair)
    requires !NormalizePair(less, e).key.Throws? && !NormalizePair(less, e).item.Throws?
    ensures Read(J.Arr([Slot(NormalizePair(less, e).key), Slot(NormalizePair(less, e).item)])) == DenotePair(e)
    decreases e, 0
  {
    SlotMeans(less, e.key);
    SlotMeans(less, e.value);
    ReadAllIsElementwise([Slot(NormalizePair(less, e).key), Slot(NormalizePair(less, e).item)]);
  }

  lemma {:induction false} MembersMean(less: Order, ms: seq<Member>)
    requires forall m :: m in NormalizeMembers(less, ms) ==> !m.item.Throws?
    ensures ReadFields(Fields(FlatMap(PresentMember, NormalizeMembers(less, ms)))) == DenoteMembers(ms)
    decreases ms, 0
  {
    if ms == [] {
    } else {
      var ns := NormalizeMembers(less, ms);
      var rest := FlatMap(PresentMember, NormalizeMembers(less, ms[1..]));
      if Dangerous(ms[0].name) {
        assert ns == NormalizeMembers(less, ms[1..]);
        MembersMean(less, ms[1..]);
      } else {
        assert ns[0] in ns && ns[1..] == NormalizeMembers(less, ms[1..]);
        SlotMeans(less, ms[0].value);
        MembersMean(less, ms[1..]);
        MemberMeans(less, ms[0], rest);
      }
    }
  }

  lemma MemberMeans(less: Order, m: Member, rest: seq<Entry<string, J.Json>>)
    requires !Normalize(less, m.value).Throws? && Read(Slot(Normalize(less, m.value))) == Denote(m.value)
    ensures ReadFields(Fields(PresentMember(Entry(m.name, Normalize(less, m.value))) + rest))
            == (if m.value.Undefined? then [] else [Named(m.name, Denote(m.value))]) + ReadFields(Fields(rest))
  {
    OnlyUndefinedIsAbsent(less, m.value);
    if m.value.Undefined? {
      assert [] + rest == rest;
    } else {
      FieldsCons(Entry(m.name, Normalize(less, m.value).json), rest);
    }
  }

  lemma ReadsAsSet(items: seq<J.Json>)
    ensures Read(Native("Set", "values", J.Arr(items)).json) == Collection(multiset(ReadAll(items)))
  {
    var fields := [J.Field("$type", J.Str("Set")), J.Field("values", J.Arr(items))];
    assert IsNative(fields);
  }

  lemma ReadsAsMap(items: seq<J.Json>)
    ensures Read(Native("Map", "entries", J.Arr(items)).json) == Mapping(multiset(ReadAll(items)))
  {
    var fields := [J.Field("$type", J.Str("Map")), J.Field("entries", J.Arr(items))];
    assert IsNative(fields);
  }

  lemma SetMeans(vs: seq<Value>, items: seq<J.Json>)
    requires multiset(ReadAll(items)) == multiset(DenoteAll(vs))
    ensures Read(Native("Set", "values", J.Arr(items)).json) == Denote(SetOf(vs))
  {
    ReadsAsSet(items);
  }

  lemma SetItemsRead(less: Order, ns: seq<Normal>)
    requires Throws !in ns
    ensures multiset(ReadAll(Items(Sort(less, FlatMap(Present, ns))) + FlatMap(Missing, ns)))
            == multiset(ReadAll(Slots(ns)))
  {
    SortedItems(less, FlatMap(Present, ns));
    PresentAndMissing(ns);
    ReadAllPermutes(Items(Sort(less, FlatMap(Present, ns))) + FlatMap(Missing, ns), Slots(ns));
  }

  lemma MapMeans(es: seq<Pair>, items: seq<J.Json>)
    requires multiset(ReadAll(items)) == multiset(DenotePairs(es))
    ensures Read(Native("Map", "entries", J.Arr(items)).json) == Denote(MapOf(es))
  {
    ReadsAsMap(items);
  }

  lemma MapItemsRead(less: Order, es: seq<Pair>)
    ensures multiset(ReadAll(Items(Sort(less, Entries(less, es))))) == multiset(ReadAll(Items(Entries(less, es))))
  {
    SortedItems(less, Entries(less, es));
    ReadAllPermutes(Items(Sort(less, Entries(less, es))), Items(Entries(less, es)));
  }

  lemma PlainMeans(less: Order, ms: seq<Member>)
    requires Normalize(less, Plain(ms)).Kept? && !HasTag(Normalize(less, Plain(ms)).json.fields)
    requires ReadFields(Fields(FlatMap(PresentMember, NormalizeMembers(less, ms)))) == DenoteMembers(ms)
    ensures Read(Normalize(less, Plain(ms)).json) == Denote(Plain(ms))
  {
    var xs := FlatMap(PresentMember, NormalizeMembers(less, ms));
    var fields := Fields(Sort(NameLess, xs));
    SortedFields(NameLess, xs);
    ReadFieldsPermutes(fields, Fields(xs));
    PlainForm(less, ms);
    UntaggedReadsAsEntity(fields);
  }

  lemma UntaggedReadsAsEntity(fields: seq<J.Field>)
    requires !HasTag(fields)
    ensures Read(J.Obj(fields)) == Entity(multiset(ReadFields(fields)))
  {
    if fields != [] {
      assert fields[0] in fields;
    }
  }

  /** Values with one normal form mean the same, whatever kinds they are; so in particular no plain object
      shares a normal form with a date, URL, expression, map or set. */
  lemma SameFormSameMeaning(less: Order, v: Value, w: Value)
    requires Normalize(less, v).Kept? && Normalize(less, v) == Normalize(less, w)
    ensures Denote(v) == Denote(w)
    ensures v.Plain? ==> w.Plain?
  {
    SlotMeans(less, v);
    SlotMeans(less, w);
  }

  // ---- one meaning, one normal form ----

  /** What makes a normal form depend on the meaning alone: objects have unique names, sets have no undefined
      member, and maps no undefined key and no two keys that mean the same with values that do not. */
  ghost predicate Regular(v: Value)
    decreases v
  {
    match v
    case Arr(items) => forall i :: 0 <= i < |items| ==> Regular(items[i])
    case Plain(members) => UniqueNames(members) && forall i :: 0 <= i < |members| ==> Regular(members[i].value)
    case MapOf(entries) =>
      && (forall i :: 0 <= i < |entries| ==>
            !entries[i].key.Undefined? && Regular(entries[i].key) && Regular(entries[i].value))
      && SameKeysSameValues(entries)
    case SetOf(values) => forall i :: 0 <= i < |values| ==> !values[i].Undefined? && Regular(values[i])
    case _ => true
  }

  ghost predicate SameKeysSameValues(es: seq<Pair>) {
    forall i, j :: 0 <= i < |es| && 0 <= j < |es| && Denote(es[i].key) == Denote(es[j].key) ==>
                     Denote(es[i].value) == Denote(es[j].value)
  }

  /** The comparison ties only texts of things that mean the same, wherever normalization sorts by texts: among the
      elements of a set and among the keys of a map.  Undefined elements of a set are not compared. */
  ghost predicate Separated(less: Order, v: Value)
    decreases v
  {
    match v
    case Arr(items) => forall i :: 0 <= i < |items| ==> Separated(less, items[i])
    case Plain(members) =>
      forall i :: 0 <= i < |members| && !Dangerous(members[i].name) ==> Separated(less, members[i].value)
    case MapOf(entries) =>
      && (forall i :: 0 <= i < |entries| ==> Separated(less, entries[i].key) && Separated(less, entries[i].value))
      && (forall i, j :: 0 <= i < |entries| && 0 <= j < |entries| && KeysTie(less, entries[i], entries[j]) ==>
                           Denote(entries[i].key) == Denote(entries[j].key))
    case SetOf(values) =>
      && (forall i :: 0 <= i < |values| ==> Separated(less, values[i]))
      && (forall i, j :: 0 <= i < |values| && 0 <= j < |values| && TextsTie(less, values[i], values[j]) ==>
                           Denote(values[i]) == Denote(values[j]))
    case _ => true
  }

  predicate TextsTie(less: Order, v: Value, w: Value) {
    && Normalize(less, v).Kept? && Normalize(less, w).Kept?
    && Tied(less, Text(Normalize(less, v)), Text(Normalize(less, w)))
  }

  /** A comparison that tells all texts apart separates every accepted value. */
  lemma {:induction false} TotalSeparates(less: Order, v: Value)
    requires Total(less) && !Normalize(less, v).Throws?
    ensures Separated(less, v)
    decreases v, 0
  {
    match v
    case Arr(items) =>
      forall i | 0 <= i < |items| ensures Separated(less, items[i]) {
        NormalAt(less, items, i);
        TotalSeparates(less, items[i]);
      }
    case Plain(members) =>
      forall i | 0 <= i < |members| && !Dangerous(members[i].name) ensures Separated(less, members[i].value) {
        KeptMember(less, members, i);
        TotalSeparates(less, members[i].value);
      }
    case MapOf(entries) =>
      forall i | 0 <= i < |entries| ensures Separated(less, entries[i].key) && Separated(less, entries[i].value) {
        KeptPair(less, entries, i);
        PairSeparates(less, entries[i]);
      }
      forall i, j | 0 <= i < |entries| && 0 <= j < |entries| && KeysTie(less, entries[i], entries[j])
        ensures Denote(entries[i].key) == Denote(entries[j].key)
      {
        KeptPair(less, entries, i);
        KeptPair(less, entries, j);
        TiedMeansSame(less, entries[i].key, entries[j].key);
      }
    case SetOf(values) =>
      forall i | 0 <= i < |values| ensures Separated(less, values[i]) {
        NormalAt(less, values, i);
        TotalSeparates(less, values[i]);
      }
      forall i, j | 0 <= i < |values| && 0 <= j < |values| && TextsTie(less, values[i], values[j])
        ensures Denote(values[i]) == Denote(values[j])
      {
        TiedMeansSame(less, values[i], values[j]);
      }
    case _ =>
  }

  lemma {:induction false} PairSeparates(less: Order, e: Pair)
    requires Total(less) && !Normalize(less, e.key).Throws? && !Normalize(less, e.value).Throws?
    ensures Separated(less, e.key) && Separated(less, e.value)
    decreases e, 0
  {
    TotalSeparates(less, e.key);
    TotalSeparates(less, e.value);
  }

  lemma TiedMeansSame(less: Order, v: Value, w: Value)
    requires Total(less) && !Normalize(less, v).Throws? && !Normalize(less, w).Throws?
    requires Tied(less, Text(Normalize(less, v)), Text(Normalize(less, w)))
    ensures Denote(v) == Denote(w)
  {
    TotalIffUntied(less);
    TextTells(less, v, w);
    SlotMeans(less, v);
    SlotMeans(less, w);
  }

  /** The converse: regular values that mean the same, however nested the changes of order, have one normal form, if
      the comparison separates one of them. */
  lemma {:induction false} SameMeaningSameForm(less: Order, v: Value, w: Value)
    requires WeakOrder(less) && Separated(less, v) && Regular(v) && Regular(w) && Denote(v) == Denote(w)
    requires !Normalize(less, v).Throws? && !Normalize(less, w).Throws?
    ensures Slot(Normalize(less, v)) == Slot(Normalize(less, w))
    decreases v, 0
  {
    SenseTellsKind(v, w);
    match v
    case Arr(items) => SameItemsForm(less, items, w.items);
    case Plain(members) => SameMembersForm(less, members, w.members);
    case MapOf(entries) => SameEntriesForm(less, entries, w.entries);
    case SetOf(values) => SameValuesForm(less, values, w.values);
    case _ => SameScalarForm(less, v, w);
  }

  predicate Container(v: Value) {
    v.Arr? || v.Plain? || v.MapOf? || v.SetOf?
  }

  lemma SenseTellsKind(v: Value, w: Value)
    requires Denote(v) == Denote(w)
    ensures (v.Arr? <==> w.Arr?) && (v.Plain? <==> w.Plain?) && (v.MapOf? <==> w.MapOf?) && (v.SetOf? <==> w.SetOf?)
  {
  }

  lemma SameScalarForm(less: Order, v: Value, w: Value)
    requires Denote(v) == Denote(w) && !Container(v) && !Container(w)
    requires !Normalize(less, v).Throws? && !Normalize(less, w).Throws?
    ensures Slot(Normalize(less, v)) == Slot(Normalize(less, w))
  {
  }

  lemma {:induction false} SameItemsForm(less: Order, vs: seq<Value>, ws: seq<Value>)
    requires WeakOrder(less) && Separated(less, Arr(vs)) && Regular(Arr(vs)) && Regular(Arr(ws))
    requires Denote(Arr(vs)) == Denote(Arr(ws))
    requires !Normalize(less, Arr(vs)).Throws? && !Normalize(less, Arr(ws)).Throws?
    ensures Normalize(less, Arr(vs)) == Normalize(less, Arr(ws))
    decreases vs, 1
  {
    SameItems(less, vs, ws);
  }

  lemma {:induction false} SameItems(less: Order, vs: seq<Value>, ws: seq<Value>)
    requires WeakOrder(less) && forall i :: 0 <= i < |vs| ==> Separated(less, vs[i])
    requires (forall i :: 0 <= i < |vs| ==> Regular(vs[i])) && (forall i :: 0 <= i < |ws| ==> Regular(ws[i]))
    requires DenoteAll(vs) == DenoteAll(ws)
    requires Throws !in NormalizeAll(less, vs) && Throws !in NormalizeAll(less, ws)
    ensures Slots(NormalizeAll(less, vs)) == Slots(NormalizeAll(less, ws))
    decreases vs, 0
  {
    if vs != [] && ws != [] {
      var ns, ms := NormalizeAll(less, vs), NormalizeAll(less, ws);
      assert ns[0] in ns && ms[0] in ms && ns[1..] == NormalizeAll(less, vs[1..])
             && ms[1..] == NormalizeAll(less, ws[1..]);
      assert DenoteAll(vs)[1..] == DenoteAll(vs[1..]) && DenoteAll(ws)[1..] == DenoteAll(ws[1..]);
      assert DenoteAll(vs)[0] == Denote(vs[0]) && DenoteAll(ws)[0] == Denote(ws[0]);
      SameMeaningSameForm(less, vs[0], ws[0]);
      SameItems(less, vs[1..], ws[1..]);
      SlotsCons(ns);
      SlotsCons(ms);
    }
  }

  lemma {:induction false} DenoteAllIsElementwise(vs: seq<Value>)
    ensures DenoteAll(vs) == FlatMap(v => [Denote(v)], vs)
  {
    if vs == [] {
    } else {
      DenoteAllIsElementwise(vs[1..]);
    }
  }

  lemma {:induction false} NormalAt(less: Order, vs: seq<Value>, i: nat)
    requires i < |vs|
    ensures Normalize(less, vs[i]) in NormalizeAll(less, vs)
  {
    if i == 0 {
    } else {
      NormalAt(less, vs[1..], i - 1);
    }
  }

  /** Values that are not undefined and mean the same normalize alike, absent or not. */
  lemma SlotTellsNormal(less: Order, v: Value, w: Value)
    requires !Normalize(less, v).Throws? && !Normalize(less, w).Throws? && !v.Undefined? && !w.Undefined?
    requires Slot(Normalize(less, v)) == Slot(Normalize(less, w))
    ensures Normalize(less, v) == Normalize(less, w)
  {
    OnlyUndefinedIsAbsent(less, v);
    OnlyUndefinedIsAbsent(less, w);
  }

  lemma {:induction false} SameValuesForm(less: Order, vs: seq<Value>, ws: seq<Value>)
    requires WeakOrder(less) && Separated(less, SetOf(vs)) && Regular(SetOf(vs)) && Regular(SetOf(ws))
    requires Denote(SetOf(vs)) == Denote(SetOf(ws))
    requires !Normalize(less, SetOf(vs)).Throws? && !Normalize(less, SetOf(ws)).Throws?
    ensures Normalize(less, SetOf(vs)) == Normalize(less, SetOf(ws))
    decreases vs, 0
  {
    forall x, y | x in vs && y in ws && Denote(x) == Denote(y)
      ensures Normalize(less, x) == Normalize(less, y)
    {
      var i :| 0 <= i < |vs| && vs[i] == x;
      var j :| 0 <= j < |ws| && ws[j] == y;
      NormalAt(less, vs, i);
      NormalAt(less, ws, j);
      SameMeaningSameForm(less, vs[i], ws[j]);
      SlotTellsNormal(less, x, y);
    }
    SameSensesSameNormals(less, vs, ws);
    forall i, j | 0 <= i < |vs| && 0 <= j < |vs| && TextsTie(less, vs[i], vs[j])
      ensures Normalize(less, vs[i]) == Normalize(less, vs[j])
    {
      SameMeaningSameForm(less, vs[i], vs[j]);
      SlotTellsNormal(less, vs[i], vs[j]);
    }
    TiesAgreeUntied(less, vs);
    SetUnfolds(less, vs);
    SetUnfolds(less, ws);
    SetNormalIgnoresOrder(less, NormalizeAll(less, vs), NormalizeAll(less, ws));
  }

  lemma TiesAgreeUntied(less: Order, vs: seq<Value>)
    requires forall i, j :: 0 <= i < |vs| && 0 <= j < |vs| && TextsTie(less, vs[i], vs[j]) ==>
                              Normalize(less, vs[i]) == Normalize(less, vs[j])
    ensures Untied(less, NormalizeAll(less, vs))
  {
    var ns := NormalizeAll(less, vs);
    forall n, m | n in ns && m in ns && n.Kept? && m.Kept? && Tied(less, Text(n), Text(m))
      ensures n == m
    {
      var i := NormalizedElement(less, vs, n);
      var j := NormalizedElement(less, vs, m);
      assert TextsTie(less, vs[i], vs[j]);
    }
  }

  lemma SameSensesSameNormals(less: Order, vs: seq<Value>, ws: seq<Value>)
    requires forall x, y :: x in vs && y in ws && Denote(x) == Denote(y) ==> Normalize(less, x) == Normalize(less, y)
    requires multiset(DenoteAll(vs)) == multiset(DenoteAll(ws))
    ensures multiset(NormalizeAll(less, vs)) == multiset(NormalizeAll(less, ws))
  {
    DenoteAllIsElementwise(vs);
    DenoteAllIsElementwise(ws);
    AllIsElementwise(less, vs);
    AllIsElementwise(less, ws);
    LooksCarryOver(v => [Denote(v)], v => [Normalize(less, v)], vs, ws);
  }

  // ---- maps ----

  ghost function EntryOf(less: Order, e: Pair): seq<Entry<string, J.Json>> {
    PairEntry(NormalizePair(less, e))
  }

  lemma {:induction false} PairsElementwise(less: Order, es: seq<Pair>)
    ensures DenotePairs(es) == FlatMap(e => [DenotePair(e)], es)
    ensures Entries(less, es) == FlatMap(e => EntryOf(less, e), es)
  {
    if es == [] {
    } else {
      PairsElementwise(less, es[1..]);
      assert NormalizePairs(less, es)[1..] == NormalizePairs(less, es[1..]);
    }
  }

  lemma {:induction false} SamePairSameEntry(less: Order, e: Pair, f: Pair)
    requires WeakOrder(less) && Separated(less, e.key) && Separated(less, e.value)
    requires Regular(e.key) && Regular(f.key) && Regular(e.value) && Regular(f.value)
    requires !e.key.Undefined? && !f.key.Undefined? && DenotePair(e) == DenotePair(f)
    requires !Normalize(less, e.key).Throws? && !Normalize(less, e.value).Throws?
    requires !Normalize(less, f.key).Throws? && !Normalize(less, f.value).Throws?
    ensures EntryOf(less, e) == EntryOf(less, f)
    decreases e, 0
  {
    assert [Denote(e.key), Denote(e.value)] == [Denote(f.key), Denote(f.value)];
    assert [Denote(e.key), Denote(e.value)][0] == [Denote(f.key), Denote(f.value)][0];
    assert [Denote(e.key), Denote(e.value)][1] == [Denote(f.key), Denote(f.value)][1];
    SameMeaningSameForm(less, e.key, f.key);
    SameMeaningSameForm(less, e.value, f.value);
    SlotTellsNormal(less, e.key, f.key);
  }

  lemma {:induction false} SameEntriesForm(less: Order, es: seq<Pair>, ws: seq<Pair>)
    requires WeakOrder(less) && Separated(less, MapOf(es)) && Regular(MapOf(es)) && Regular(MapOf(ws))
    requires Denote(MapOf(es)) == Denote(MapOf(ws))
    requires !Normalize(less, MapOf(es)).Throws? && !Normalize(less, MapOf(ws)).Throws?
    ensures Normalize(less, MapOf(es)) == Normalize(less, MapOf(ws))
    decreases es, 2
  {
    SameEntries(less, es, ws);
    RegularIsConsistent(less, es);
    ConsistentIsAlike(less, es);
    EntriesTellForm(less, es, ws);
  }

  lemma EntriesTellForm(less: Order, es: seq<Pair>, ws: seq<Pair>)
    requires WeakOrder(less) && Alike(less, Entries(less, es))
             && multiset(Entries(less, es)) == multiset(Entries(less, ws))
    requires Normalize(less, MapOf(es)).Kept? && Normalize(less, MapOf(ws)).Kept?
    ensures Normalize(less, MapOf(es)) == Normalize(less, MapOf(ws))
  {
    AlikeSortAlike(less, Entries(less, es), Entries(less, ws));
    SameItemsShown(Sort(less, Entries(less, es)), Sort(less, Entries(less, ws)));
    SameForm(less, es, es);
    SameForm(less, ws, ws);
  }

  lemma {:induction false} SameEntries(less: Order, es: seq<Pair>, ws: seq<Pair>)
    requires WeakOrder(less) && Separated(less, MapOf(es)) && Regular(MapOf(es)) && Regular(MapOf(ws))
    requires Denote(MapOf(es)) == Denote(MapOf(ws))
    requires Normalize(less, MapOf(es)).Kept? && Normalize(less, MapOf(ws)).Kept?
    ensures multiset(Entries(less, es)) == multiset(Entries(less, ws))
    decreases es, 1
  {
    forall x, y | x in es && y in ws && DenotePair(x) == DenotePair(y)
      ensures EntryOf(less, x) == EntryOf(less, y)
    {
      var i :| 0 <= i < |es| && es[i] == x;
      var j :| 0 <= j < |ws| && ws[j] == y;
      KeptPair(less, es, i);
      KeptPair(less, ws, j);
      SamePairSameEntry(less, es[i], ws[j]);
    }
    SamePairsSameEntries(less, es, ws);
  }

  lemma SamePairsSameEntries(less: Order, es: seq<Pair>, ws: seq<Pair>)
    requires forall x, y :: x in es && y in ws && DenotePair(x) == DenotePair(y)
                            ==> EntryOf(less, x) == EntryOf(less, y)
    requires multiset(DenotePairs(es)) == multiset(DenotePairs(ws))
    ensures multiset(Entries(less, es)) == multiset(Entries(less, ws))
  {
    PairsElementwise(less, es);
    PairsElementwise(less, ws);
    LooksCarryOver(e => [DenotePair(e)], e => EntryOf(less, e), es, ws);
  }

  lemma {:induction false} RegularIsConsistent(less: Order, es: seq<Pair>)
    requires WeakOrder(less) && Separated(less, MapOf(es)) && Regular(MapOf(es)) && Normalize(less, MapOf(es)).Kept?
    ensures Consistent(less, es)
    decreases es, 0
  {
    forall i, j | 0 <= i < |es| && 0 <= j < |es| && KeysTie(less, es[i], es[j])
      ensures SameSlots(less, es[i], es[j])
    {
      KeptPair(less, es, i);
      KeptPair(less, es, j);
      SamePairForm(less, es[i], es[j]);
    }
  }

  lemma {:induction false} SamePairForm(less: Order, e: Pair, f: Pair)
    requires WeakOrder(less) && Separated(less, e.key) && Separated(less, e.value)
    requires Regular(e.key) && Regular(f.key) && Regular(e.value) && Regular(f.value)
    requires Denote(e.key) == Denote(f.key) && Denote(e.value) == Denote(f.value)
    requires !Normalize(less, e.key).Throws? && !Normalize(less, e.value).Throws?
    requires !Normalize(less, f.key).Throws? && !Normalize(less, f.value).Throws?
    ensures SameSlots(less, e, f)
    decreases e, 0
  {
    SameMeaningSameForm(less, e.key, f.key);
    SameMeaningSameForm(less, e.value, f.value);
  }

  // ---- objects ----

  ghost function NamedOf(m: Member): seq<Named> {
    if Dangerous(m.name) || m.value.Undefined? then [] else [Named(m.name, Denote(m.value))]
  }

  ghost function MemberEntry(less: Order, m: Member): seq<Entry<string, J.Json>> {
    if Dangerous(m.name) then [] else PresentMember(Entry(m.name, Normalize(less, m.value)))
  }

  lemma {:induction false} MembersElementwise(less: Order, ms: seq<Member>)
    ensures DenoteMembers(ms) == FlatMap(NamedOf, ms)
    ensures FlatMap(PresentMember, NormalizeMembers(less, ms)) == FlatMap(m => MemberEntry(less, m), ms)
  {
    if ms == [] {
    } else {
      MembersElementwise(less, ms[1..]);
      var ns, rest := NormalizeMembers(less, ms), NormalizeMembers(less, ms[1..]);
      if Dangerous(ms[0].name) {
        assert ns == rest;
      } else {
        assert ns[0] == Entry(ms[0].name, Normalize(less, ms[0].value)) && ns[1..] == rest;
      }
    }
  }

  lemma {:induction false} MemberAt(less: Order, ms: seq<Member>, i: nat)
    requires i < |ms| && !Dangerous(ms[i].name)
    ensures Entry(ms[i].name, Normalize(less, ms[i].value)) in NormalizeMembers(less, ms)
  {
    if i == 0 {
    } else {
      MemberAt(less, ms[1..], i - 1);
    }
  }

  lemma KeptMember(less: Order, ms: seq<Member>, i: nat)
    requires i < |ms| && !Dangerous(ms[i].name) && Normalize(less, Plain(ms)).Kept?
    ensures !Normalize(less, ms[i].value).Throws?
  {
    MemberAt(less, ms, i);
    var n := Entry(ms[i].name, Normalize(less, ms[i].value));
    assert n in NormalizeMembers(less, ms);
  }

  lemma {:induction false} SameMembersForm(less: Order, ms: seq<Member>, ws: seq<Member>)
    requires WeakOrder(less) && Separated(less, Plain(ms)) && Regular(Plain(ms)) && Regular(Plain(ws))
    requires Denote(Plain(ms)) == Denote(Plain(ws))
    requires !Normalize(less, Plain(ms)).Throws? && !Normalize(less, Plain(ws)).Throws?
    ensures Normalize(less, Plain(ms)) == Normalize(less, Plain(ws))
    decreases ms, 0
  {
    forall x, y | x in ms && y in ws && NamedOf(x) == NamedOf(y)
      ensures MemberEntry(less, x) == MemberEntry(less, y)
    {
      var i :| 0 <= i < |ms| && ms[i] == x;
      var j :| 0 <= j < |ws| && ws[j] == y;
      SameMemberEntry(less, ms, i, ws, j);
    }
    SameNamesSameEntries(less, ms, ws);
    MembersAreDetermined(less, ms);
    PlainNormalAlike(NormalizeMembers(less, ms), NormalizeMembers(less, ws));
  }

  lemma PlainNormalAlike(ns: seq<Entry<string, Normal>>, ms: seq<Entry<string, Normal>>)
    requires PlainNormal(ns).Kept? && PlainNormal(ms).Kept? && Determined(FlatMap(PresentMember, ns))
    requires multiset(FlatMap(PresentMember, ns)) == multiset(FlatMap(PresentMember, ms))
    ensures PlainNormal(ns) == PlainNormal(ms)
  {
    NamesAreOrdered();
    SortIgnoresOrder(NameLess, FlatMap(PresentMember, ns), FlatMap(PresentMember, ms));
  }

  lemma {:induction false} SameMemberEntry(less: Order, ms: seq<Member>, i: nat, ws: seq<Member>, j: nat)
    requires WeakOrder(less) && i < |ms| && j < |ws| && Regular(ms[i].value) && Regular(ws[j].value)
    requires !Dangerous(ms[i].name) ==> Separated(less, ms[i].value)
    requires Normalize(less, Plain(ms)).Kept? && Normalize(less, Plain(ws)).Kept?
    requires NamedOf(ms[i]) == NamedOf(ws[j])
    ensures MemberEntry(less, ms[i]) == MemberEntry(less, ws[j])
    decreases ms[i], 0
  {
    OnlyUndefinedIsAbsent(less, ms[i].value);
    OnlyUndefinedIsAbsent(less, ws[j].value);
    if NamedOf(ms[i]) == [] {
    } else {
      assert NamedOf(ms[i])[0] == NamedOf(ws[j])[0];
      KeptMember(less, ms, i);
      KeptMember(less, ws, j);
      SameMeaningSameForm(less, ms[i].value, ws[j].value);
    }
  }

  lemma SameNamesSameEntries(less: Order, ms: seq<Member>, ws: seq<Member>)
    requires forall x, y :: x in ms && y in ws && NamedOf(x) == NamedOf(y)
                            ==> MemberEntry(less, x) == MemberEntry(less, y)
    requires Normalize(less, Plain(ms)).Kept? && Normalize(less, Plain(ws)).Kept?
    requires multiset(DenoteMembers(ms)) == multiset(DenoteMembers(ws))
    ensures multiset(FlatMap(PresentMember, NormalizeMembers(less, ms)))
            == multiset(FlatMap(PresentMember, NormalizeMembers(less, ws)))
  {
    MembersElementwise(less, ms);
    MembersElementwise(less, ws);
    LooksAreAlikeInNumber(less, ms);
    LooksAreAlikeInNumber(less, ws);
    LooksCarryOver(NamedOf, m => MemberEntry(less, m), ms, ws);
  }

  lemma LooksAreAlikeInNumber(less: Order, ms: seq<Member>)
    requires Normalize(less, Plain(ms)).Kept?
    ensures forall m :: m in ms ==> |NamedOf(m)| == |MemberEntry(less, m)| <= 1
  {
    forall m | m in ms ensures |NamedOf(m)| == |MemberEntry(less, m)| <= 1 {
      var i :| 0 <= i < |ms| && ms[i] == m;
      OnlyUndefinedIsAbsent(less, m.value);
      if !Dangerous(m.name) {
        KeptMember(less, ms, i);
      }
    }
  }

  /** The characterization: regular accepted values, one of them separated, have one normal form if and only if they
      mean the same. */
  lemma SameFormIffSameMeaning(less: Order, v: Value, w: Value)
    requires WeakOrder(less) && Separated(less, v) && Regular(v) && Regular(w)
    requires !v.Undefined? && !w.Undefined? && !Normalize(less, v).Throws? && !Normalize(less, w).Throws?
    ensures Normalize(less, v) == Normalize(less, w) <==> Denote(v) == Denote(w)
  {
    SlotMeans(less, v);
    SlotMeans(less, w);
    if Denote(v) == Denote(w) {
      SameMeaningSameForm(less, v, w);
      SlotTellsNormal(less, v, w);
    }
  }
}
