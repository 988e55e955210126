/** The cache key of a wrapped call (src/internal/CacheKeySerialization.ts:82-96, src/CacheStack.ts:798-803)
    and a reader that recovers the normalized arguments from it. */
module KeyEncoding {
  import opened OrderedMap
  import opened StableSort
  import opened Normalization
  import M = Meaning
  import J = Json

  /** What a key tells about one argument. */
  datatype Part =
    | Text(s: string)
    | Number(text: string)
    | Flag(b: bool)
    | Nothing
    | Structure(json: J.Json)

  /** `replace` of every occurrence of one character. */
  function ReplaceAll(s: string, c: char, with: string): string {
    if s == "" then "" else (if s[0] == c then with else [s[0]]) + ReplaceAll(s[1..], c, with)
  }

  function Escape(s: string): string {
    ReplaceAll(ReplaceAll(s, '%', "%25"), ':', "%3A")
  }

  /** `serializeKeyPart`; none if the argument is refused. */
  function SerializePart(less: Order, v: Value): Option<string> {
    match v
    case Str(s) => Some("s:" + Escape(s))
    case Num(text) => Some("n:" + text)
    case Bool(b) => Some("b:" + if b then "true" else "false")
    case _ =>
      match Normalize(less, v)
      case Throws => None
      case Absent => Some("j2:undefined")
      case Kept(json) => Some("j2:" + J.Stringify(json))
  }

  /** The parts joined by colons. */
  function Join(less: Order, args: seq<Value>): Option<string> {
    if args == [] then Some("")
    else
      var first, more := SerializePart(less, args[0]), Join(less, args[1..]);
      if first.None? || more.None? then None
      else Some(if |args| == 1 then first.value else first.value + ":" + more.value)
  }

  function CacheKey(less: Order, prefix: string, args: seq<Value>): Option<string> {
    var suffix := Join(less, args);
    if suffix.None? then None
    else if suffix.value == "" then Some(prefix)
    else Some(prefix + ":" + suffix.value)
  }

  // ---- reading a key ----

  function BeforeColon(s: string): (n: nat)
    ensures n <= |s| && (n < |s| ==> s[n] == ':') && ':' !in s[..n]
  {
    if s == "" || s[0] == ':' then 0
    else
      var n := BeforeColon(s[1..]);
      assert s[..n + 1] == [s[0]] + s[1..][..n];
      n + 1
  }

  function Unescape(s: string): string {
    if s == "" then ""
    else if s[0] == '%' && |s| >= 3 then (if s[2] == '5' then "%" else ":") + Unescape(s[3..])
    else [s[0]] + Unescape(s[1..])
  }

  function ReadPart(input: string): (r: Option<J.Parsed<Part>>)
    ensures r.Some? ==> |r.value.rest| < |input|
  {
    if |input| >= 2 && input[1] == ':' then
      var n := BeforeColon(input[2..]);
      var text, rest := input[2..][..n], input[2..][n..];
      if input[0] == 's' then Some(J.Parsed(Text(Unescape(text)), rest))
      else if input[0] == 'n' then Some(J.Parsed(Number(text), rest))
      else Some(J.Parsed(Flag(text == "true"), rest))
    else if |input| >= 3 then ReadStructure(input[3..])
    else None
  }

  /** The part after `j2:`. */
  function ReadStructure(text: string): (r: Option<J.Parsed<Part>>)
    ensures r.Some? ==> |r.value.rest| <= |text|
  {
    if J.Starts(text, 'u') then
      if |text| >= 9 then Some(J.Parsed(Nothing, text[9..])) else None
    else
      var j := J.Read(text);
      if j.None? then None else Some(J.Parsed(Structure(j.value.value), j.value.rest))
  }

  function ReadParts(input: string): Option<seq<Part>>
    decreases |input|
  {
    var first := ReadPart(input);
    if first.None? then None
    else if first.value.rest == "" then Some([first.value.value])
    else
      var more := ReadParts(first.value.rest[1..]);
      if more.None? then None else Some([first.value.value] + more.value)
  }

  /** Reads back what a key with a known prefix was made from. */
  function ReadKey(prefix: string, key: string): Option<seq<Part>> {
    if key == prefix then Some([])
    else if |key| > |prefix| && key[..|prefix|] == prefix then ReadParts(key[|prefix| + 1..])
    else None
  }

  // ---- the round trip ----

  function Shown(less: Order, v: Value): Part {
    match v
    case Str(s) => Text(s)
    case Num(text) => Number(text)
    case Bool(b) => Flag(b)
    case _ =>
      match Normalize(less, v)
      case Kept(json) => Structure(json)
      case _ => Nothing
  }

  function ShownAll(less: Order, args: seq<Value>): seq<Part> {
    if args == [] then [] else [Shown(less, args[0])] + ShownAll(less, args[1..])
  }

  /** Numbers print as texts without a colon. */
  ghost predicate NumbersPrint(args: seq<Value>) {
    forall i :: 0 <= i < |args| && args[i].Num? ==> ':' !in args[i].text
  }

  lemma {:induction false} ReplaceAllAppends(a: string, b: string, c: char, with: string)
    ensures ReplaceAll(a + b, c, with) == ReplaceAll(a, c, with) + ReplaceAll(b, c, with)
  {
    if a == "" {
      assert a + b == b;
    } else {
      assert (a + b)[1..] == a[1..] + b;
      ReplaceAllAppends(a[1..], b, c, with);
    }
  }

  /** The two passes of escaping work character by character. */
  lemma EscapeOne(s: string)
    requires s != ""
    ensures Escape(s) == (if s[0] == '%' then "%25" else if s[0] == ':' then "%3A" else [s[0]]) + Escape(s[1..])
  {
    var first := if s[0] == '%' then "%25" else [s[0]];
    var rest := ReplaceAll(s[1..], '%', "%25");
    ReplaceAllAppends(first, rest, ':', "%3A");
    if s[0] == '%' {
      PercentHasNoColon();
    } else {
      assert [s[0]][1..] == "";
      assert ReplaceAll([s[0]], ':', "%3A") == if s[0] == ':' then "%3A" else [s[0]];
    }
  }

  lemma PercentHasNoColon()
    ensures ReplaceAll("%25", ':', "%3A") == "%25"
  {
    assert "%25"[1..] == "25" && "25"[1..] == "5" && "5"[1..] == "";
    assert ReplaceAll("5", ':', "%3A") == "5";
    assert ReplaceAll("25", ':', "%3A") == "25";
  }

  /** Escaping leaves no colon and can be undone. */
  lemma {:induction false} UnescapeEscaped(s: string)
    ensures ':' !in Escape(s) && Unescape(Escape(s)) == s
  {
    if s == "" {
    } else {
      UnescapeEscaped(s[1..]);
      EscapeOne(s);
      var first := if s[0] == '%' then "%25" else if s[0] == ':' then "%3A" else [s[0]];
      assert (first + Escape(s[1..]))[|first|..] == Escape(s[1..]);
      assert s == [s[0]] + s[1..];
    }
  }

  lemma {:induction false} BeforeColonOf(text: string, rest: string)
    requires ':' !in text && (rest == "" || rest[0] == ':')
    ensures BeforeColon(text + rest) == |text|
  {
    if text == "" {
      assert text + rest == rest;
    } else {
      assert (text + rest)[1..] == text[1..] + rest;
      BeforeColonOf(text[1..], rest);
    }
  }

  /** A part ends by itself or at the next colon. */
  lemma ReadSerialized(less: Order, v: Value, rest: string)
    requires SerializePart(less, v).Some? && (v.Num? ==> ':' !in v.text) && (rest == "" || rest[0] == ':')
    ensures ReadPart(SerializePart(less, v).value + rest) == Some(J.Parsed(Shown(less, v), rest))
  {
    if v.Str? {
      UnescapeEscaped(v.s);
      ReadTagged('s', Escape(v.s), rest);
    } else if v.Num? {
      ReadTagged('n', v.text, rest);
    } else if v.Bool? {
      var text := if v.b then "true" else "false";
      assert ':' !in text;
      ReadTagged('b', text, rest);
    } else {
      ReadSerializedStructure(less, v, rest);
    }
  }

  lemma ReadSerializedStructure(less: Order, v: Value, rest: string)
    requires SerializePart(less, v).Some? && !v.Str? && !v.Num? && !v.Bool? && (rest == "" || rest[0] == ':')
    ensures ReadPart(SerializePart(less, v).value + rest) == Some(J.Parsed(Shown(less, v), rest))
  {
    OnlyUndefinedIsAbsent(less, v);
    var n := Normalize(less, v);
    var text := if n.Kept? then J.Stringify(n.json) else "undefined";
    assert "j2:" + text + rest == "j2:" + (text + rest);
    AfterTag(text + rest);
    if n.Kept? {
      NormalIsProper(less, v);
      ReadPrintedStructure(n.json, rest);
    } else {
      ReadNothing(rest);
      assert "j2:" + text == "j2:undefined";
    }
  }

  lemma ReadNothing(rest: string)
    ensures ReadStructure("undefined" + rest) == Some(J.Parsed(Nothing, rest))
  {
    var text := "undefined" + rest;
    assert text[9..] == rest && text[0] == 'u';
  }

  lemma ReadTagged(tag: char, text: string, rest: string)
    requires (tag == 's' || tag == 'n' || tag == 'b') && ':' !in text && (rest == "" || rest[0] == ':')
    ensures ReadPart([tag, ':'] + text + rest)
            == Some(J.Parsed(if tag == 's' then Text(Unescape(text)) else if tag == 'n' then Number(text)
                             else Flag(text == "true"), rest))
  {
    var input := [tag, ':'] + text + rest;
    assert input[2..] == text + rest;
    BeforeColonOf(text, rest);
    assert (text + rest)[..|text|] == text && (text + rest)[|text|..] == rest;
  }

  lemma ReadPrintedStructure(j: J.Json, rest: string)
    requires J.Proper(j) && (rest == "" || rest[0] == ':')
    ensures ReadStructure(J.Stringify(j) + rest) == Some(J.Parsed(Structure(j), rest))
  {
    J.ReadPrinted(j, rest);
    J.PrintAppends(j, rest);
    J.PrintBegins(j, rest);
  }

  lemma AfterTag(text: string)
    ensures ReadPart("j2:" + text) == ReadStructure(text)
  {
    var input := "j2:" + text;
    assert input[3..] == text && input[1] == '2';
  }

  lemma {:induction false} ReadJoined(less: Order, args: seq<Value>)
    requires args != [] && NumbersPrint(args) && Join(less, args).Some?
    ensures Join(less, args).value != "" && ReadParts(Join(less, args).value) == Some(ShownAll(less, args))
  {
    if |args| == 1 {
      ReadLast(less, args[0]);
      assert args == [args[0]];
    } else {
      assert NumbersPrint(args[1..]);
      ReadJoined(less, args[1..]);
      ReadFirst(less, args[0], Join(less, args[1..]).value, ShownAll(less, args[1..]));
    }
  }

  lemma ReadLast(less: Order, v: Value)
    requires SerializePart(less, v).Some? && (v.Num? ==> ':' !in v.text)
    ensures Join(less, [v]) == SerializePart(less, v) && SerializePart(less, v).value != ""
    ensures ReadParts(SerializePart(less, v).value) == Some([Shown(less, v)]) && ShownAll(less, [v]) == [Shown(less, v)]
  {
    ReadSerialized(less, v, "");
    assert SerializePart(less, v).value + "" == SerializePart(less, v).value;
    assert [v][1..] == [];
  }

  lemma ReadFirst(less: Order, v: Value, more: string, parts: seq<Part>)
    requires SerializePart(less, v).Some? && (v.Num? ==> ':' !in v.text)
    requires more != "" && ReadParts(more) == Some(parts)
    ensures ReadParts(SerializePart(less, v).value + ":" + more) == Some([Shown(less, v)] + parts)
  {
    var first := SerializePart(less, v).value;
    ReadSerialized(less, v, ":" + more);
    J.Reassociate(first, ":", more);
    ReadNext(first + ":" + more, Shown(less, v), more, parts);
  }

  lemma ReadNext(input: string, part: Part, more: string, parts: seq<Part>)
    requires ReadPart(input) == Some(J.Parsed(part, ":" + more)) && ReadParts(more) == Some(parts)
    ensures ReadParts(input) == Some([part] + parts)
  {
    assert (":" + more)[1..] == more;
  }

  /** A key of a known prefix parses back to exactly the normalized argument list. */
  lemma KeyDecodes(less: Order, prefix: string, args: seq<Value>)
    requires NumbersPrint(args) && CacheKey(less, prefix, args).Some?
    ensures ReadKey(prefix, CacheKey(less, prefix, args).value) == Some(ShownAll(less, args))
  {
    if args != [] {
      ReadJoined(less, args);
      var suffix := Join(less, args).value;
      var key := prefix + ":" + suffix;
      assert key[..|prefix|] == prefix && key[|prefix| + 1..] == suffix;
    }
  }

  /** Two accepted argument lists share a key exactly when they normalize alike, argument by argument. */
  lemma SameKeyIff(less: Order, prefix: string, args: seq<Value>, other: seq<Value>)
    requires NumbersPrint(args) && NumbersPrint(other)
    requires CacheKey(less, prefix, args).Some? && CacheKey(less, prefix, other).Some?
    ensures CacheKey(less, prefix, args) == CacheKey(less, prefix, other)
            <==> ShownAll(less, args) == ShownAll(less, other)
  {
    KeyDecodes(less, prefix, args);
    KeyDecodes(less, prefix, other);
    if ShownAll(less, args) == ShownAll(less, other) {
      ShownAlikeJoinAlike(less, args, other);
    }
  }

  lemma SamePart(less: Order, v: Value, w: Value)
    requires SerializePart(less, v).Some? && SerializePart(less, w).Some? && Shown(less, v) == Shown(less, w)
    ensures SerializePart(less, v) == SerializePart(less, w)
  {
  }

  lemma JoinFirst(less: Order, args: seq<Value>)
    requires args != [] && Join(less, args).Some?
    ensures SerializePart(less, args[0]).Some? && Join(less, args[1..]).Some?
    ensures var first := SerializePart(less, args[0]).value;
            Join(less, args) == Some(if |args| == 1 then first else first + ":" + Join(less, args[1..]).value)
  {
  }

  lemma ShownFirst(less: Order, args: seq<Value>, other: seq<Value>)
    requires args != [] && other != [] && ShownAll(less, args) == ShownAll(less, other)
    ensures Shown(less, args[0]) == Shown(less, other[0]) && ShownAll(less, args[1..]) == ShownAll(less, other[1..])
  {
    assert ShownAll(less, args)[1..] == ShownAll(less, args[1..]);
    assert ShownAll(less, other)[1..] == ShownAll(less, other[1..]);
    assert ShownAll(less, args)[0] == Shown(less, args[0]) && ShownAll(less, other)[0] == Shown(less, other[0]);
  }

  lemma {:induction false} ShownAlikeJoinAlike(less: Order, args: seq<Value>, other: seq<Value>)
    requires Join(less, args).Some? && Join(less, other).Some? && ShownAll(less, args) == ShownAll(less, other)
    ensures Join(less, args) == Join(less, other)
  {
    if args != [] && other != [] {
      JoinFirst(less, args);
      JoinFirst(less, other);
      ShownFirst(less, args, other);
      SamePart(less, args[0], other[0]);
      ShownAlikeJoinAlike(less, args[1..], other[1..]);
      SameLengths(less, args, other);
    }
  }

  lemma {:induction false} SameLengths(less: Order, args: seq<Value>, other: seq<Value>)
    requires ShownAll(less, args) == ShownAll(less, other)
    ensures |args| == |other|
  {
    ShownLength(less, args);
    ShownLength(less, other);
  }

  lemma {:induction false} ShownLength(less: Order, args: seq<Value>)
    ensures |ShownAll(less, args)| == |args|
  {
    if args == [] {
    } else {
      ShownLength(less, args[1..]);
    }
  }

  lemma {:induction false} JoinedIff(less: Order, args: seq<Value>)
    ensures Join(less, args).None? <==> exists i :: 0 <= i < |args| && Offends(args[i])
  {
    if args == [] {
    } else {
      ThrowsIff(less, args[0]);
      JoinedIff(less, args[1..]);
      assert forall i :: 0 < i < |args| ==> args[i] == args[1..][i-1];
    }
  }

  /** A call is refused a key if and only if one of its arguments offends. */
  lemma RefusedIff(less: Order, prefix: string, args: seq<Value>)
    ensures CacheKey(less, prefix, args).None? <==> exists i :: 0 <= i < |args| && Offends(args[i])
  {
    JoinedIff(less, args);
  }

  // ---- what two calls with one key have in common ----

  /** Two arguments that mean the same.  A number means its text, also where JSON would lose it, and undefined
      differs from null. */
  ghost predicate SameArgument(v: Value, w: Value) {
    && M.Denote(v) == M.Denote(w)
    && (v.Undefined? <==> w.Undefined?)
    && (v.Num? || w.Num? ==> v == w)
  }

  lemma ShownMeansSame(less: Order, v: Value, w: Value)
    requires SerializePart(less, v).Some? && SerializePart(less, w).Some?
    requires Shown(less, v) == Shown(less, w)
    ensures SameArgument(v, w)
  {
    OnlyUndefinedIsAbsent(less, v);
    OnlyUndefinedIsAbsent(less, w);
    M.SlotMeans(less, v);
    M.SlotMeans(less, w);
  }

  lemma SameIsShownAlike(less: Order, v: Value, w: Value)
    requires WeakOrder(less) && M.Separated(less, v) && M.Regular(v) && M.Regular(w)
    requires SerializePart(less, v).Some? && SerializePart(less, w).Some?
    requires SameArgument(v, w)
    ensures Shown(less, v) == Shown(less, w)
  {
    if !v.Undefined? && !v.Num? && !v.Str? && !v.Bool? {
      OnlyUndefinedIsAbsent(less, v);
      OnlyUndefinedIsAbsent(less, w);
      M.SameFormIffSameMeaning(less, v, w);
    }
  }

  lemma {:induction false} ShownAt(less: Order, args: seq<Value>, i: nat)
    requires i < |args|
    ensures |ShownAll(less, args)| == |args| && ShownAll(less, args)[i] == Shown(less, args[i])
  {
    ShownLength(less, args);
    if i == 0 {
    } else {
      ShownAt(less, args[1..], i - 1);
    }
  }

  lemma {:induction false} AcceptedAt(less: Order, args: seq<Value>, i: nat)
    requires i < |args| && Join(less, args).Some?
    ensures SerializePart(less, args[i]).Some?
  {
    if i == 0 {
    } else {
      AcceptedAt(less, args[1..], i - 1);
    }
  }

  /** Calls with one key have arguments that mean the same: different calls never share a cache entry. */
  lemma SameKeySameArguments(less: Order, prefix: string, args: seq<Value>, other: seq<Value>)
    requires NumbersPrint(args) && NumbersPrint(other)
    requires CacheKey(less, prefix, args).Some? && CacheKey(less, prefix, args) == CacheKey(less, prefix, other)
    ensures |args| == |other| && forall i :: 0 <= i < |args| ==> SameArgument(args[i], other[i])
  {
    SameKeyIff(less, prefix, args, other);
    SameLengths(less, args, other);
    forall i | 0 <= i < |args|
      ensures SameArgument(args[i], other[i])
    {
      ShownAt(less, args, i);
      ShownAt(less, other, i);
      AcceptedAt(less, args, i);
      AcceptedAt(less, other, i);
      ShownMeansSame(less, args[i], other[i]);
    }
  }

  /** And calls with regular arguments that mean the same share a key, however their objects, maps and sets are
      ordered at any depth, if the comparison separates the arguments of one of them. */
  lemma SameArgumentsSameKey(less: Order, prefix: string, args: seq<Value>, other: seq<Value>)
    requires WeakOrder(less) && NumbersPrint(args) && NumbersPrint(other)
    requires CacheKey(less, prefix, args).Some? && CacheKey(less, prefix, other).Some?
    requires |args| == |other| && forall i :: 0 <= i < |args| ==> SameArgument(args[i], other[i])
    requires forall i :: 0 <= i < |args| ==>
                           M.Separated(less, args[i]) && M.Regular(args[i]) && M.Regular(other[i])
    ensures CacheKey(less, prefix, args) == CacheKey(less, prefix, other)
  {
    SameKeyIff(less, prefix, args, other);
    ShownLength(less, args);
    ShownLength(less, other);
    forall i | 0 <= i < |args|
      ensures ShownAll(less, args)[i] == ShownAll(less, other)[i]
    {
      ShownAt(less, args, i);
      ShownAt(less, other, i);
      AcceptedAt(less, args, i);
      AcceptedAt(less, other, i);
      SameIsShownAlike(less, args[i], other[i]);
    }
  }
}
