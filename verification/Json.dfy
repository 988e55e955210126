/** JSON text as `JSON.stringify` writes it (RFC 8259, sections 2 to 7), and a reader that undoes it. */
module Json {
  import opened OrderedMap

  // A number is its literal text.  Every printer takes the text that follows, so that no text is ever taken apart.

  datatype Json =
    | Null
    | Bool(b: bool)
    | Num(text: string)
    | Str(s: string)
    | Arr(items: seq<Json>)
    | Obj(fields: seq<Field>)

  datatype Field = Field(name: string, value: Json)

  datatype Parsed<T> = Parsed(value: T, rest: string)

  // ---- well-formed values ----

  predicate NumberChar(c: char) {
    '0' <= c <= '9' || c == '-' || c == '+' || c == '.' || c == 'e'
  }

  predicate NumberText(s: string) {
    s != "" && forall i :: 0 <= i < |s| ==> NumberChar(s[i])
  }

  ghost predicate Proper(j: Json) {
    match j
    case Num(text) => NumberText(text)
    case Arr(items) => forall i :: 0 <= i < |items| ==> Proper(items[i])
    case Obj(fields) => forall i :: 0 <= i < |fields| ==> Proper(fields[i].value)
    case _ => true
  }

  // ---- printing ----

  function Hex(d: int): char
    requires 0 <= d < 16
  {
    "0123456789abcdef"[d]
  }

  /** One character inside a string literal. */
  function Escape(c: char): string {
    var n := c as int;
    if c == '\"' then "\\\"" else if c == '\\' then "\\\\"
    else if n == 8 then "\\b" else if n == 12 then "\\f" else if n == 10 then "\\n"
    else if n == 13 then "\\r" else if n == 9 then "\\t"
    else if n < 32 then "\\u00" + [Hex(n / 16), Hex(n % 16)]
    else [c]
  }

  function PrintChars(s: string, rest: string): string {
    if s == "" then "\"" + rest else Escape(s[0]) + PrintChars(s[1..], rest)
  }

  function Print(j: Json, rest: string): string
    decreases j, 0
  {
    match j
    case Null => "null" + rest
    case Bool(b) => (if b then "true" else "false") + rest
    case Num(text) => text + rest
    case Str(s) => "\"" + PrintChars(s, rest)
    case Arr(items) => if items == [] then "[]" + rest else "[" + Print(items[0], PrintItems(items[1..], rest))
    case Obj(fields) =>
      if fields == [] then "{}" + rest else "{" + PrintField(fields[0], PrintFields(fields[1..], rest))
  }

  function PrintItems(items: seq<Json>, rest: string): string
    decreases items, 0
  {
    if items == [] then "]" + rest else "," + Print(items[0], PrintItems(items[1..], rest))
  }

  function PrintField(f: Field, rest: string): string
    decreases f, 0
  {
    "\"" + PrintChars(f.name, ":" + Print(f.value, rest))
  }

  function PrintFields(fields: seq<Field>, rest: string): string
    decreases fields, 0
  {
    if fields == [] then "}" + rest else "," + PrintField(fields[0], PrintFields(fields[1..], rest))
  }

  /** `JSON.stringify`. */
  function Stringify(j: Json): string {
    Print(j, "")
  }

  // ---- reading ----

  function HexValue(c: char): Option<int> {
    if '0' <= c <= '9' then Some(c as int - '0' as int)
    else if 'a' <= c <= 'f' then Some(c as int - 'a' as int + 10)
    else None
  }

  /** The character behind a backslash and the one after it. */
  function Unescape(c: char): Option<char> {
    if c == '\"' || c == '\\' then Some(c)
    else if c == 'b' then Some(8 as char) else if c == 'f' then Some(12 as char) else if c == 'n' then Some(10 as char)
    else if c == 'r' then Some(13 as char) else if c == 't' then Some(9 as char)
    else None
  }

  /** Reads one character of a string literal. */
  function ReadChar(input: string): (r: Option<Parsed<char>>)
    ensures r.Some? ==> |r.value.rest| < |input|
  {
    if input == "" then None
    else if input[0] != '\\' then Some(Parsed(input[0], input[1..]))
    else if |input| >= 6 && input[1] == 'u' && input[2] == '0' && input[3] == '0' then
      var high, low := HexValue(input[4]), HexValue(input[5]);
      if high.Some? && low.Some? then Some(Parsed((16 * high.value + low.value) as char, input[6..])) else None
    else if |input| >= 2 then
      var c := Unescape(input[1]);
      if c.Some? then Some(Parsed(c.value, input[2..])) else None
    else None
  }

  /** Reads up to the closing quote. */
  function ReadChars(input: string): (r: Option<Parsed<string>>)
    ensures r.Some? ==> |r.value.rest| < |input|
  {
    if input != "" && input[0] == '\"' then Some(Parsed("", input[1..]))
    else
      var c := ReadChar(input);
      if c.None? then None
      else
        var more := ReadChars(c.value.rest);
        if more.None? then None else Some(Parsed([c.value.value] + more.value.value, more.value.rest))
  }

  function ReadNumber(input: string): (r: Parsed<string>)
    ensures |r.value| + |r.rest| == |input|
  {
    if input == "" || !NumberChar(input[0]) then Parsed("", input)
    else
      var more := ReadNumber(input[1..]);
      Parsed([input[0]] + more.value, more.rest)
  }

  function ReadWord(input: string, word: string, j: Json): (r: Option<Parsed<Json>>)
    requires word != ""
    ensures r.Some? ==> |r.value.rest| < |input|
  {
    if |word| <= |input| && input[..|word|] == word then Some(Parsed(j, input[|word|..])) else None
  }

  predicate Starts(input: string, c: char) {
    input != "" && input[0] == c
  }

  function Read(input: string): (r: Option<Parsed<Json>>)
    ensures r.Some? ==> |r.value.rest| < |input|
    decreases |input|
  {
    if input == "" then None
    else if input[0] == 'n' then ReadWord(input, "null", Null)
    else if input[0] == 't' then ReadWord(input, "true", Bool(true))
    else if input[0] == 'f' then ReadWord(input, "false", Bool(false))
    else if input[0] == '\"' then
      var s := ReadChars(input[1..]);
      if s.None? then None else Some(Parsed(Str(s.value.value), s.value.rest))
    else if input[0] == '[' then
      if Starts(input[1..], ']') then Some(Parsed(Arr([]), input[2..]))
      else
        var first := Read(input[1..]);
        if first.None? then None
        else
          var more := ReadItems(first.value.rest);
          if more.None? then None else Some(Parsed(Arr([first.value.value] + more.value.value), more.value.rest))
    else if input[0] == '{' then
      if Starts(input[1..], '}') then Some(Parsed(Obj([]), input[2..]))
      else
        var first := ReadField(input[1..]);
        if first.None? then None
        else
          var more := ReadFields(first.value.rest);
          if more.None? then None else Some(Parsed(Obj([first.value.value] + more.value.value), more.value.rest))
    else
      var n := ReadNumber(input);
      if n.value == "" then None else Some(Parsed(Num(n.value), n.rest))
  }

  /** The rest of an array, after a value. */
  function ReadItems(input: string): (r: Option<Parsed<seq<Json>>>)
    ensures r.Some? ==> |r.value.rest| < |input|
    decreases |input|
  {
    if Starts(input, ']') then Some(Parsed([], input[1..]))
    else if Starts(input, ',') then
      var first := Read(input[1..]);
      if first.None? then None
      else
        var more := ReadItems(first.value.rest);
        if more.None? then None else Some(Parsed([first.value.value] + more.value.value, more.value.rest))
    else None
  }

  function ReadField(input: string): (r: Option<Parsed<Field>>)
    ensures r.Some? ==> |r.value.rest| < |input|
    decreases |input|
  {
    if !Starts(input, '\"') then None
    else
      var name := ReadChars(input[1..]);
      if name.None? || !Starts(name.value.rest, ':') then None
      else
        var value := Read(name.value.rest[1..]);
        if value.None? then None else Some(Parsed(Field(name.value.value, value.value.value), value.value.rest))
  }

  function ReadFields(input: string): (r: Option<Parsed<seq<Field>>>)
    ensures r.Some? ==> |r.value.rest| < |input|
    decreases |input|
  {
    if Starts(input, '}') then Some(Parsed([], input[1..]))
    else if Starts(input, ',') then
      var first := ReadField(input[1..]);
      if first.None? then None
      else
        var more := ReadFields(first.value.rest);
        if more.None? then None else Some(Parsed([first.value.value] + more.value.value, more.value.rest))
    else None
  }

  // ---- the round trip ----

  /** A number ends where no number character follows. */
  predicate Ends(rest: string) {
    rest == "" || !NumberChar(rest[0])
  }

  lemma ReadHex(d: int)
    requires 0 <= d < 16
    ensures HexValue(Hex(d)) == Some(d)
  {
  }

  lemma ReadEscaped(c: char, rest: string)
    ensures Escape(c) != "" && Escape(c)[0] != '\"'
    ensures ReadChar(Escape(c) + rest) == Some(Parsed(c, rest))
  {
    var text := Escape(c) + rest;
    var n := c as int;
    if n < 32 && Escape(c)[1] == 'u' {
      assert text[1] == 'u' && text[2] == '0' && text[3] == '0';
      ReadHex(n / 16);
      ReadHex(n % 16);
      assert text[6..] == rest;
    } else if |Escape(c)| == 2 {
      assert text[2..] == rest;
    } else {
      assert text[1..] == rest;
    }
  }

  lemma {:induction false} ReadPrintedChars(s: string, rest: string)
    ensures ReadChars(PrintChars(s, rest)) == Some(Parsed(s, rest))
  {
    if s == "" {
      assert ("\"" + rest)[1..] == rest;
    } else {
      var more := PrintChars(s[1..], rest);
      ReadEscaped(s[0], more);
      ReadPrintedChars(s[1..], rest);
      assert s == [s[0]] + s[1..];
      assert (Escape(s[0]) + more)[0] == Escape(s[0])[0];
    }
  }

  lemma {:induction false} ReadPrintedNumber(text: string, rest: string)
    requires (forall i :: 0 <= i < |text| ==> NumberChar(text[i])) && Ends(rest)
    ensures ReadNumber(text + rest) == Parsed(text, rest)
  {
    if text == "" {
      assert text + rest == rest;
    } else {
      ReadPrintedNumber(text[1..], rest);
      assert (text + rest)[1..] == text[1..] + rest;
      assert text == [text[0]] + text[1..];
    }
  }

  /** A printed value begins with a character that closes nothing and begins no other word. */
  lemma PrintBegins(j: Json, rest: string)
    requires Proper(j)
    ensures Print(j, rest) != "" && Print(j, rest)[0] != ']' && Print(j, rest)[0] != 'u'
  {
    match j
    case Num(text) => assert (text + rest)[0] == text[0];
    case _ =>
  }

  lemma ReadPrintedWord(word: string, j: Json, rest: string)
    requires word != ""
    ensures ReadWord(word + rest, word, j) == Some(Parsed(j, rest))
  {
    assert (word + rest)[..|word|] == word && (word + rest)[|word|..] == rest;
  }

  /** Reading what was printed gives the value back and leaves exactly what followed it. */
  lemma {:induction false} ReadPrinted(j: Json, rest: string)
    requires Proper(j) && Ends(rest)
    ensures Read(Print(j, rest)) == Some(Parsed(j, rest))
    decreases j, 0
  {
    match j
    case Null => ReadPrintedWord("null", j, rest);
    case Bool(b) => ReadPrintedWord(if b then "true" else "false", j, rest);
    case Num(text) => ReadPrintedNum(text, rest);
    case Str(s) => ReadPrintedStr(s, rest);
    case Arr(items) => ReadPrintedArr(items, rest);
    case Obj(fields) => ReadPrintedObj(fields, rest);
  }

  lemma ReadPrintedNum(text: string, rest: string)
    requires NumberText(text) && Ends(rest)
    ensures Read(Print(Num(text), rest)) == Some(Parsed(Num(text), rest))
  {
    ReadPrintedNumber(text, rest);
    assert (text + rest)[0] == text[0];
  }

  lemma ReadPrintedStr(s: string, rest: string)
    ensures Read(Print(Str(s), rest)) == Some(Parsed(Str(s), rest))
  {
    ReadPrintedChars(s, rest);
    assert Print(Str(s), rest)[1..] == PrintChars(s, rest);
  }

  lemma {:induction false} ReadPrintedArr(items: seq<Json>, rest: string)
    requires Proper(Arr(items)) && Ends(rest)
    ensures Read(Print(Arr(items), rest)) == Some(Parsed(Arr(items), rest))
    decreases items, 1
  {
    if items == [] {
      assert ("[]" + rest)[1..] == "]" + rest && ("[]" + rest)[2..] == rest;
    } else {
      var tail := PrintItems(items[1..], rest);
      ReadPrintedItems(items[1..], rest);
      ReadPrinted(items[0], tail);
      PrintBegins(items[0], tail);
      ReadArr(Print(items[0], tail), items[0], tail, items[1..], rest);
      assert items == [items[0]] + items[1..];
    }
  }

  lemma ReadArr(text: string, first: Json, middle: string, more: seq<Json>, rest: string)
    requires text != "" && text[0] != ']' && Read(text) == Some(Parsed(first, middle))
    requires ReadItems(middle) == Some(Parsed(more, rest))
    ensures Read("[" + text) == Some(Parsed(Arr([first] + more), rest))
  {
    assert ("[" + text)[1..] == text;
  }

  lemma {:induction false} ReadPrintedObj(fields: seq<Field>, rest: string)
    requires Proper(Obj(fields)) && Ends(rest)
    ensures Read(Print(Obj(fields), rest)) == Some(Parsed(Obj(fields), rest))
    decreases fields, 1
  {
    if fields == [] {
      assert ("{}" + rest)[1..] == "}" + rest && ("{}" + rest)[2..] == rest;
    } else {
      var tail := PrintFields(fields[1..], rest);
      ReadPrintedFields(fields[1..], rest);
      ReadPrintedField(fields[0], tail);
      ReadObj(PrintField(fields[0], tail), fields[0], tail, fields[1..], rest);
      assert fields == [fields[0]] + fields[1..];
    }
  }

  lemma ReadObj(text: string, first: Field, middle: string, more: seq<Field>, rest: string)
    requires Starts(text, '\"') && ReadField(text) == Some(Parsed(first, middle))
    requires ReadFields(middle) == Some(Parsed(more, rest))
    ensures Read("{" + text) == Some(Parsed(Obj([first] + more), rest))
  {
    assert ("{" + text)[1..] == text;
  }

  lemma {:induction false} ReadPrintedItems(items: seq<Json>, rest: string)
    requires (forall i :: 0 <= i < |items| ==> Proper(items[i])) && Ends(rest)
    ensures ReadItems(PrintItems(items, rest)) == Some(Parsed(items, rest)) && Ends(PrintItems(items, rest))
    decreases items, 0
  {
    if items == [] {
      assert ("]" + rest)[1..] == rest;
    } else {
      var tail := PrintItems(items[1..], rest);
      ReadPrintedItems(items[1..], rest);
      ReadPrinted(items[0], tail);
      assert PrintItems(items, rest)[1..] == Print(items[0], tail);
      assert items == [items[0]] + items[1..];
    }
  }

  lemma {:induction false} ReadPrintedField(f: Field, rest: string)
    requires Proper(f.value) && Ends(rest)
    ensures ReadField(PrintField(f, rest)) == Some(Parsed(f, rest))
    decreases f, 0
  {
    var value := Print(f.value, rest);
    ReadPrinted(f.value, rest);
    ReadPrintedChars(f.name, ":" + value);
    assert PrintField(f, rest)[1..] == PrintChars(f.name, ":" + value);
    assert (":" + value)[1..] == value;
  }

  lemma {:induction false} ReadPrintedFields(fields: seq<Field>, rest: string)
    requires (forall i :: 0 <= i < |fields| ==> Proper(fields[i].value)) && Ends(rest)
    ensures ReadFields(PrintFields(fields, rest)) == Some(Parsed(fields, rest)) && Ends(PrintFields(fields, rest))
    decreases fields, 0
  {
    if fields == [] {
      assert ("}" + rest)[1..] == rest;
    } else {
      var tail := PrintFields(fields[1..], rest);
      ReadPrintedFields(fields[1..], rest);
      ReadPrintedField(fields[0], tail);
      assert PrintFields(fields, rest)[1..] == PrintField(fields[0], tail);
      assert fields == [fields[0]] + fields[1..];
    }
  }

  /** `JSON.stringify` loses nothing: equal texts come from equal values. */
  lemma StringifyInjective(j: Json, k: Json)
    requires Proper(j) && Proper(k)
    ensures Stringify(j) == Stringify(k) ==> j == k
  {
    ReadPrinted(j, "");
    ReadPrinted(k, "");
  }

  /** What a printed value is followed by does not change how it is printed. */
  lemma {:induction false} PrintAppends(j: Json, rest: string)
    ensures Print(j, rest) == Stringify(j) + rest
  {
    PrintSplits(j, "", rest);
    assert "" + rest == rest;
  }

  lemma Reassociate(s: string, a: string, b: string)
    ensures s + (a + b) == s + a + b
  {
  }

  lemma {:induction false} PrintCharsSplits(s: string, a: string, b: string)
    ensures PrintChars(s, a + b) == PrintChars(s, a) + b
  {
    if s == "" {
      Reassociate("\"", a, b);
    } else {
      PrintCharsSplits(s[1..], a, b);
      Reassociate(Escape(s[0]), PrintChars(s[1..], a), b);
    }
  }

  lemma {:induction false} PrintSplits(j: Json, a: string, b: string)
    ensures Print(j, a + b) == Print(j, a) + b
    decreases j, 0
  {
    match j
    case Null => Reassociate("null", a, b);
    case Bool(t) => Reassociate(if t then "true" else "false", a, b);
    case Num(text) => Reassociate(text, a, b);
    case Str(s) =>
      PrintCharsSplits(s, a, b);
      Reassociate("\"", PrintChars(s, a), b);
    case Arr(items) => PrintArrSplits(items, a, b);
    case Obj(fields) => PrintObjSplits(fields, a, b);
  }

  lemma {:induction false} PrintArrSplits(items: seq<Json>, a: string, b: string)
    ensures Print(Arr(items), a + b) == Print(Arr(items), a) + b
    decreases items, 1
  {
    if items == [] {
      Reassociate("[]", a, b);
    } else {
      var tail := PrintItems(items[1..], a);
      PrintItemsSplits(items[1..], a, b);
      PrintSplits(items[0], tail, b);
      Reassociate("[", Print(items[0], tail), b);
    }
  }

  lemma {:induction false} PrintObjSplits(fields: seq<Field>, a: string, b: string)
    ensures Print(Obj(fields), a + b) == Print(Obj(fields), a) + b
    decreases fields, 1
  {
    if fields == [] {
      Reassociate("{}", a, b);
    } else {
      var tail := PrintFields(fields[1..], a);
      PrintFieldsSplits(fields[1..], a, b);
      PrintFieldSplits(fields[0], tail, b);
      Reassociate("{", PrintField(fields[0], tail), b);
    }
  }

  lemma {:induction false} PrintItemsSplits(items: seq<Json>, a: string, b: string)
    ensures PrintItems(items, a + b) == PrintItems(items, a) + b
    decreases items, 0
  {
    if items == [] {
      Reassociate("]", a, b);
    } else {
      var tail := PrintItems(items[1..], a);
      PrintItemsSplits(items[1..], a, b);
      PrintSplits(items[0], tail, b);
      Reassociate(",", Print(items[0], tail), b);
    }
  }

  lemma {:induction false} PrintFieldSplits(f: Field, a: string, b: string)
    ensures PrintField(f, a + b) == PrintField(f, a) + b
    decreases f, 0
  {
    var value := Print(f.value, a);
    PrintSplits(f.value, a, b);
    Reassociate(":", value, b);
    PrintCharsSplits(f.name, ":" + value, b);
    Reassociate("\"", PrintChars(f.name, ":" + value), b);
  }

  lemma {:induction false} PrintFieldsSplits(fields: seq<Field>, a: string, b: string)
    ensures PrintFields(fields, a + b) == PrintFields(fields, a) + b
    decreases fields, 0
  {
    if fields == [] {
      Reassociate("}", a, b);
    } else {
      var tail := PrintFields(fields[1..], a);
      PrintFieldsSplits(fields[1..], a, b);
      PrintFieldSplits(fields[0], tail, b);
      Reassociate(",", PrintField(fields[0], tail), b);
    }
  }
}
