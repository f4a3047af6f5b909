/** JSON texts: the printer's escapes, documents with their spacing, and a reader for the
    grammar of RFC 8259, sections 3, 4, 6 and 7. */
module Json {
  import opened Decimal
  import opened Wrappers

  // ---------------------------------------------------------------- values

  datatype Json =
    | Null
    | Bool(b: bool)
    | Number(text: string)
    | Str(s: string)
    | Object(members: seq<Member>)

  datatype Member = Member(key: string, value: Json)

  // ---------------------------------------------------------------- strings

  predicate Control(c: char) { c < ' ' }

  function HexDigit(v: nat): char
    requires v < 16
  {
    if v < 10 then ('0' as int + v) as char else ('a' as int + v - 10) as char
  }

  function EscapeChar(c: char): string {
    if c == '"' then ['\\', '"']
    else if c == '\\' then ['\\', '\\']
    else if c as int == 8 then ['\\', 'b']
    else if c as int == 12 then ['\\', 'f']
    else if c == '\n' then ['\\', 'n']
    else if c == '\r' then ['\\', 'r']
    else if c == '\t' then ['\\', 't']
    else if Control(c) then ['\\', 'u', '0', '0', HexDigit(c as int / 16), HexDigit(c as int % 16)]
    else [c]
  }

  function Escape(s: string): string {
    if s == [] then [] else EscapeChar(s[0]) + Escape(s[1..])
  }

  lemma {:induction false} EscapeSnoc(s: string, c: char)
    ensures Escape(s + [c]) == Escape(s) + EscapeChar(c)
  {
    if s == [] {
      assert ([] + [c])[1..] == [];
      assert Escape([c]) == EscapeChar(c) + [];
    } else {
      assert (s + [c])[1..] == s[1..] + [c];
      EscapeSnoc(s[1..], c);
    }
  }

  /** The escapes, character by character. */
  lemma EscapeTable(c: char)
    ensures EscapeChar('"') == "\\\"" && EscapeChar('\\') == "\\\\"
    ensures EscapeChar(8 as char) == "\\b" && EscapeChar(12 as char) == "\\f"
    ensures EscapeChar('\n') == "\\n" && EscapeChar('\r') == "\\r" && EscapeChar('\t') == "\\t"
    ensures c < ' ' && c as int !in {8, 9, 10, 12, 13} ==>
              EscapeChar(c) == "\\u00" + ["0123456789abcdef"[c as int / 16], "0123456789abcdef"[c as int % 16]]
    ensures c >= ' ' && c != '"' && c != '\\' ==> EscapeChar(c) == [c]
  {
  }

  /** jsonEscape, the loop. */
  method JsonEscape(value: string) returns (escaped: string)
    ensures escaped == Escape(value)
  {
    escaped := [];
    for i := 0 to |value|
      invariant escaped == Escape(value[..i])
    {
      EscapeSnoc(value[..i], value[i]);
      assert value[..i + 1] == value[..i] + [value[i]];
      escaped := escaped + EscapeChar(value[i]);
    }
    assert value[..|value|] == value;
  }

  function Quoted(s: string): string { ['"'] + Escape(s) + ['"'] }

  // ---------------------------------------------------------------- the reader

  datatype Parse<+T> = Fail | Done(value: T, rest: string)

  predicate IsHex(c: char) { IsDigit(c) || 'a' <= c <= 'f' || 'A' <= c <= 'F' }

  function HexValue(c: char): (v: nat)
    requires IsHex(c)
    ensures v < 16
  {
    if IsDigit(c) then DigitOf(c) else if c >= 'a' then c as int - 'a' as int + 10 else c as int - 'A' as int + 10
  }

  /** The character of a \u escape; a lone surrogate has none and is replaced. */
  function FromCode(code: nat): char
    requires code < 0x10000
  {
    if 0xD800 <= code < 0xE000 then 0xFFFD as char else code as char
  }

  function Unescaped(c: char): Option<char> {
    match c
    case '"' => Some('"')
    case '\\' => Some('\\')
    case '/' => Some('/')
    case 'b' => Some(8 as char)
    case 'f' => Some(12 as char)
    case 'n' => Some('\n')
    case 'r' => Some('\r')
    case 't' => Some('\t')
    case _ => None
  }

  /** Section 7, from after the opening quotation mark to after the closing one. */
  function ParseChars(s: string): (p: Parse<string>)
    ensures p.Done? ==> |p.rest| < |s|
    decreases |s|
  {
    if s == [] || Control(s[0]) then Fail
    else if s[0] == '"' then Done([], s[1..])
    else if s[0] != '\\' then Prepend(s[0], ParseChars(s[1..]))
    else if |s| < 2 then Fail
    else if s[1] == 'u' then
      if |s| < 6 || !IsHex(s[2]) || !IsHex(s[3]) || !IsHex(s[4]) || !IsHex(s[5]) then Fail
      else Prepend(FromCode(((HexValue(s[2]) * 16 + HexValue(s[3])) * 16 + HexValue(s[4])) * 16 + HexValue(s[5])), ParseChars(s[6..]))
    else if Unescaped(s[1]).None? then Fail
    else Prepend(Unescaped(s[1]).value, ParseChars(s[2..]))
  }

  function Prepend(c: char, p: Parse<string>): (r: Parse<string>)
    ensures r.Done? <==> p.Done?
    ensures r.Done? ==> r.rest == p.rest && r.value == [c] + p.value
  {
    match p
    case Fail => Fail
    case Done(v, rest) => Done([c] + v, rest)
  }

  predicate IsSpace(c: char) { c == ' ' || c == '\t' || c == '\n' || c == '\r' }

  function SkipSpace(s: string): (r: string)
    ensures |r| <= |s|
  {
    if s != [] && IsSpace(s[0]) then SkipSpace(s[1..]) else s
  }

  function DigitRun(s: string): (n: nat)
    ensures n <= |s| && Digits(s[..n]) && (n < |s| ==> !IsDigit(s[n]))
  {
    if s != [] && IsDigit(s[0]) then
      var n := DigitRun(s[1..]);
      assert forall k :: 0 < k < n + 1 ==> s[k] == s[1..][..n][k - 1];
      n + 1
    else 0
  }

  /** Section 6: the length of the number at the start of s; 0 if there is none. */
  function NumberLength(s: string): (n: nat)
    ensures n <= |s|
  {
    var sign := if s != [] && s[0] == '-' then 1 else 0;
    var run := DigitRun(s[sign..]);
    if run == 0 then 0
    else
      var whole := sign + (if s[sign] == '0' then 1 else run);
      var frac := if whole < |s| && s[whole] == '.' then DigitRun(s[whole + 1..]) else 0;
      var point := if frac > 0 then whole + 1 + frac else whole;
      var signed := point + 1 < |s| && (s[point] == 'e' || s[point] == 'E') && (s[point + 1] == '+' || s[point + 1] == '-');
      var from := point + (if signed then 2 else 1);
      var exp := if point < |s| && (s[point] == 'e' || s[point] == 'E') && from <= |s| then DigitRun(s[from..]) else 0;
      if exp > 0 then from + exp else point
  }

  function StartsWith(s: string, word: string): bool { |word| <= |s| && s[..|word|] == word }

  /** A value of section 3, at the first character of s. */
  function ParseValue(s: string): (p: Parse<Json>)
    ensures p.Done? ==> |p.rest| < |s|
    decreases |s|, 1
  {
    if s == [] then Fail
    else if s[0] == '"' then
      var p := ParseChars(s[1..]);
      if p.Fail? then Fail else Done(Str(p.value), p.rest)
    else if s[0] == '{' then
      var inner := SkipSpace(s[1..]);
      if inner != [] && inner[0] == '}' then Done(Object([]), inner[1..])
      else
        var p := ParseMembers(inner);
        if p.Fail? then Fail else Done(Object(p.value), p.rest)
    else if StartsWith(s, "null") then Done(Null, s[4..])
    else if StartsWith(s, "true") then Done(Bool(true), s[4..])
    else if StartsWith(s, "false") then Done(Bool(false), s[5..])
    else
      var n := NumberLength(s);
      if n == 0 then Fail else Done(Number(s[..n]), s[n..])
  }

  /** Section 4: the members up to and with the closing brace, at the first quotation mark. */
  function ParseMembers(s: string): (p: Parse<seq<Member>>)
    ensures p.Done? ==> |p.rest| < |s|
    decreases |s|, 0
  {
    if s == [] || s[0] != '"' then Fail
    else
      var key := ParseChars(s[1..]);
      if key.Fail? then Fail
      else
        var colon := SkipSpace(key.rest);
        if colon == [] || colon[0] != ':' then Fail
        else
          var value := ParseValue(SkipSpace(colon[1..]));
          if value.Fail? then Fail
          else
            var next := SkipSpace(value.rest);
            if next == [] then Fail
            else if next[0] == '}' then Done([Member(key.value, value.value)], next[1..])
            else if next[0] != ',' then Fail
            else
              var more := ParseMembers(SkipSpace(next[1..]));
              if more.Fail? then Fail else Done([Member(key.value, value.value)] + more.value, more.rest)
  }

  /** Section 2: one value with space around it, and nothing else. */
  function ParseText(s: string): Option<Json> {
    var p := ParseValue(SkipSpace(s));
    if p.Done? && SkipSpace(p.rest) == [] then Some(p.value) else None
  }

  // ---------------------------------------------------------------- documents with their spacing

  datatype Doc =
    | DNull
    | DBool(b: bool)
    | DNumber(text: string)
    | DStr(s: string)
    | DObject(items: seq<Item>, close: string)

  /** A member: the space before it, its key, its value. */
  datatype Item = Item(lead: string, key: string, value: Doc)

  function Text(d: Doc): string {
    match d
    case DNull => "null"
    case DBool(b) => if b then "true" else "false"
    case DNumber(text) => text
    case DStr(s) => Quoted(s)
    case DObject(items, close) => ['{'] + ItemsText(items) + close + ['}']
  }

  function KeyText(lead: string, key: string): string {
    lead + Quoted(key) + [':', ' ']
  }

  function ItemsText(items: seq<Item>): string {
    if items == [] then []
    else if |items| == 1 then KeyText(items[0].lead, items[0].key) + Text(items[0].value)
    else KeyText(items[0].lead, items[0].key) + Text(items[0].value) + [','] + ItemsText(items[1..])
  }

  /** The punctuation of a printed object: braces, commas between the members, and every
      member its key in quotation marks, a colon, a space, and its value. */
  lemma TextForm(a: Item, more: seq<Item>, close: string)
    ensures Text(DObject(more, close)) == "{" + ItemsText(more) + close + "}"
    ensures ItemsText([]) == "" && ItemsText([a]) == a.lead + "\"" + Escape(a.key) + "\": " + Text(a.value)
    ensures more != [] ==> ItemsText([a] + more) == ItemsText([a]) + "," + ItemsText(more)
  {
    KeyForm(a);
    assert ([a] + more)[1..] == more;
  }

  lemma KeyForm(a: Item)
    ensures KeyText(a.lead, a.key) == a.lead + "\"" + Escape(a.key) + "\": "
  {
  }

  function Meaning(d: Doc): Json {
    match d
    case DNull => Null
    case DBool(b) => Bool(b)
    case DNumber(text) => Number(text)
    case DStr(s) => Str(s)
    case DObject(items, _) => Object(Members(items))
  }

  function Members(items: seq<Item>): (r: seq<Member>)
    ensures |r| == |items|
  {
    if items == [] then [] else [Member(items[0].key, Meaning(items[0].value))] + Members(items[1..])
  }

  predicate Spaces(s: string) { forall k :: 0 <= k < |s| ==> IsSpace(s[k]) }

  /** What may stand after a number: nothing that could belong to it. */
  predicate Stops(rest: string) {
    rest == [] || (!IsDigit(rest[0]) && rest[0] != '.' && rest[0] != 'e' && rest[0] != 'E')
  }

  predicate NoNul(s: string) { forall k :: 0 <= k < |s| ==> s[k] as int != 0 }

  /** A numeral of section 6 that is read in full when something else follows. */
  ghost predicate Numeral(text: string) {
    && text != [] && (text[0] == '-' || IsDigit(text[0])) && NoNul(text)
    && forall rest :: Stops(rest) ==> NumberLength(text + rest) == |text|
  }

  ghost predicate Spaced(d: Doc) {
    match d
    case DNumber(text) => Numeral(text)
    case DObject(items, close) => Spaces(close) && forall k :: 0 <= k < |items| ==> Spaces(items[k].lead) && Spaced(items[k].value)
    case _ => true
  }

  // ---------------------------------------------------------------- reading back what was printed

  lemma EscapedCharReads(c: char, tail: string)
    ensures ParseChars(EscapeChar(c) + tail) == Prepend(c, ParseChars(tail))
  {
    hide ParseChars, HexDigit;
    if |EscapeChar(c)| == 6 {
      CodeReads(c, tail);
    } else if |EscapeChar(c)| == 2 {
      ShortReads(c, tail);
    } else {
      PlainReads(c, tail);
    }
  }

  lemma PlainReads(c: char, tail: string)
    requires !Control(c) && c != '"' && c != '\\'
    ensures ParseChars([c] + tail) == Prepend(c, ParseChars(tail))
  {
    assert ([c] + tail)[1..] == tail;
  }

  /** A reverse solidus and one letter. */
  lemma ShortReads(c: char, tail: string)
    requires |EscapeChar(c)| == 2
    ensures ParseChars(EscapeChar(c) + tail) == Prepend(c, ParseChars(tail))
  {
    hide HexDigit, HexValue, IsHex, FromCode;
    assert (EscapeChar(c) + tail)[2..] == tail;
  }

  /** A control character, by its code. */
  lemma CodeReads(c: char, tail: string)
    requires Control(c)
    ensures ParseChars(['\\', 'u', '0', '0', HexDigit(c as int / 16), HexDigit(c as int % 16)] + tail) == Prepend(c, ParseChars(tail))
  {
    hide HexDigit, HexValue, IsHex, FromCode;
    var v := c as int;
    var s := ['\\', 'u', '0', '0', HexDigit(v / 16), HexDigit(v % 16)] + tail;
    assert s[6..] == tail;
    DigitReads(0);
    DigitReads(v / 16);
    DigitReads(v % 16);
    CodeOf(c);
  }

  lemma DigitReads(v: nat)
    requires v < 16
    ensures IsHex(HexDigit(v)) && HexValue(HexDigit(v)) == v && HexDigit(0) == '0'
  {
  }

  lemma CodeOf(c: char)
    requires Control(c)
    ensures c as int < 32 && FromCode(c as int) == c
  {
  }

  /** Unescaping undoes escaping, and stops at the closing quotation mark. */
  lemma {:induction false} EscapeRoundTrip(s: string, rest: string)
    ensures ParseChars(Escape(s) + ['"'] + rest) == Done(s, rest)
    decreases |s|
  {
    if s == [] {
      assert (Escape(s) + ['"'] + rest)[1..] == rest;
    } else {
      var tail := Escape(s[1..]) + ['"'] + rest;
      assert Escape(s) + ['"'] + rest == EscapeChar(s[0]) + tail;
      EscapedCharReads(s[0], tail);
      EscapeRoundTrip(s[1..], rest);
      assert [s[0]] + s[1..] == s;
    }
  }

  /** No control character, NUL included, survives escaping. */
  lemma {:induction false} EscapeHasNoControls(s: string)
    ensures forall k :: 0 <= k < |Escape(s)| ==> !Control(Escape(s)[k])
  {
    if s != [] {
      EscapeHasNoControls(s[1..]);
      var e := EscapeChar(s[0]);
      assert forall k :: 0 <= k < |e| ==> !Control(e[k]);
    }
  }

  lemma {:induction false} SkipsSpaces(space: string, t: string)
    requires Spaces(space) && (t == [] || !IsSpace(t[0]))
    ensures SkipSpace(space + t) == t
  {
    if space == [] {
      assert space + t == t;
    } else {
      assert (space + t)[1..] == space[1..] + t;
      SkipsSpaces(space[1..], t);
    }
  }

  lemma {:induction false} RunsOver(d: string, rest: string)
    requires Digits(d) && (rest == [] || !IsDigit(rest[0]))
    ensures DigitRun(d + rest) == |d|
  {
    if d == [] {
      assert d + rest == rest;
    } else {
      assert (d + rest)[1..] == d[1..] + rest;
      RunsOver(d[1..], rest);
    }
  }

  /** %d of a value that fits. */
  function IntText(n: int): string {
    if n < 0 then ['-'] + Dec(-n) else Dec(n)
  }

  /** A digit run, perhaps after a sign, that does not start with a superfluous zero. */
  lemma WholeLength(s: string, sign: nat, run: nat)
    requires sign == (if s != [] && s[0] == '-' then 1 else 0)
    requires 0 < run && sign + run <= |s| && DigitRun(s[sign..]) == run && (run > 1 ==> s[sign] != '0')
    requires Stops(s[sign + run..])
    ensures NumberLength(s) == sign + run
  {
  }

  lemma DecIsNumeral(n: nat)
    ensures Numeral(Dec(n))
  {
    forall rest | Stops(rest)
      ensures NumberLength(Dec(n) + rest) == |Dec(n)|
    {
      DecLength(n, rest);
    }
  }

  lemma DecLength(n: nat, rest: string)
    requires Stops(rest)
    ensures NumberLength(Dec(n) + rest) == |Dec(n)|
  {
    var s := Dec(n) + rest;
    DecRoundTrip(n);
    RunsOver(Dec(n), rest);
    assert s[0..] == s;
    assert s[|Dec(n)|..] == rest;
    assert s[0] == Dec(n)[0];
    WholeLength(s, 0, |Dec(n)|);
  }

  lemma IntIsNumeral(n: int)
    ensures Numeral(IntText(n))
  {
    if n >= 0 {
      DecIsNumeral(n);
    } else {
      forall rest | Stops(rest)
        ensures NumberLength(IntText(n) + rest) == |IntText(n)|
      {
        NegativeLength(-n, rest);
      }
    }
  }

  lemma NegativeLength(n: nat, rest: string)
    requires Stops(rest)
    ensures NumberLength(['-'] + Dec(n) + rest) == 1 + |Dec(n)|
  {
    hide NumberLength, DigitRun, Dec;
    var s := ['-'] + Dec(n) + rest;
    DecRoundTrip(n);
    RunsOver(Dec(n), rest);
    assert s[1..] == Dec(n) + rest;
    assert s[1 + |Dec(n)|..] == rest;
    assert s[1] == Dec(n)[0];
    WholeLength(s, 1, |Dec(n)|);
  }

  lemma FractionLength(s: string, whole: nat)
    requires 0 < whole && whole + 3 <= |s| && s[0] != '-' && DigitRun(s) == whole && (whole > 1 ==> s[0] != '0')
    requires s[whole] == '.' && DigitRun(s[whole + 1..]) == 2 && Stops(s[whole + 3..])
    ensures NumberLength(s) == whole + 3
  {
  }

  lemma LoadIsNumeral(h: nat)
    ensures Numeral(Load(h))
  {
    forall rest | Stops(rest)
      ensures NumberLength(Load(h) + rest) == |Load(h)|
    {
      LoadLength(h, rest);
    }
  }

  lemma PointLength(d: string, two: string, rest: string)
    requires d != [] && Digits(d) && |two| == 2 && Digits(two) && Stops(rest) && (|d| > 1 ==> d[0] != '0')
    ensures NumberLength(d + ['.'] + two + rest) == |d| + 3
  {
    var s := d + ['.'] + two + rest;
    var point := ['.'] + two + rest;
    assert s == d + point && point[0] == '.';
    RunsOver(d, point);
    assert s[|d| + 1..] == two + rest;
    RunsOver(two, rest);
    assert s[|d| + 3..] == rest;
    FractionLength(s, |d|);
  }

  lemma LoadLength(h: nat, rest: string)
    requires Stops(rest)
    ensures NumberLength(Load(h) + rest) == |Load(h)|
  {
    var d, two := Dec(h / 100), [DigitChar(h / 10 % 10), DigitChar(h % 10)];
    DecRoundTrip(h / 100);
    assert Load(h) + rest == d + ['.'] + two + rest;
    PointLength(d, two, rest);
  }

  lemma WordsRead(rest: string)
    ensures ParseValue("null" + rest) == Done(Null, rest)
    ensures ParseValue("true" + rest) == Done(Bool(true), rest)
    ensures ParseValue("false" + rest) == Done(Bool(false), rest)
  {
  }

  lemma NumberReads(text: string, rest: string)
    requires Numeral(text) && Stops(rest)
    ensures ParseValue(text + rest) == Done(Number(text), rest)
  {
    var s := text + rest;
    assert s[..|text|] == text && s[|text|..] == rest;
    assert s[0] == text[0];
    assert !StartsWith(s, "null") && !StartsWith(s, "true") && !StartsWith(s, "false") by {
      assert "null"[0] == 'n' && "true"[0] == 't' && "false"[0] == 'f';
    }
  }

  lemma StringReads(v: string, rest: string)
    ensures ParseValue(Quoted(v) + rest) == Done(Str(v), rest)
  {
    assert (Quoted(v) + rest)[1..] == Escape(v) + ['"'] + rest;
    EscapeRoundTrip(v, rest);
  }

  lemma ObjectText(items: seq<Item>, close: string, rest: string)
    ensures var s := Text(DObject(items, close)) + rest;
            s[0] == '{' && s[1..] == ItemsText(items) + (close + ['}'] + rest)
  {
  }

  lemma EmptyObjectReads(close: string, rest: string)
    requires Spaces(close)
    ensures ParseValue(Text(DObject([], close)) + rest) == Done(Object([]), rest)
  {
    ObjectText([], close, rest);
    ClosingStops(close, rest);
    assert [] + (close + ['}'] + rest) == close + ['}'] + rest;
  }

  /** A printed document is read back as what it means, and its text ends where it ends. */
  lemma {:induction false} DocReads(d: Doc, rest: string)
    requires Spaced(d) && (d.DNumber? ==> Stops(rest))
    ensures ParseValue(Text(d) + rest) == Done(Meaning(d), rest)
    decreases d, 1
  {
    match d {
      case DNull => WordsRead(rest);
      case DBool(b) => WordsRead(rest);
      case DNumber(text) => NumberReads(text, rest);
      case DStr(v) => StringReads(v, rest);
      case DObject(items, close) =>
        if items == [] {
          EmptyObjectReads(close, rest);
        } else {
          ObjectText(items, close, rest);
          ItemsRead(items, close, rest);
        }
    }
  }

  /** The key of one member, up to the colon. */
  lemma KeyReads(lead: string, key: string, tail: string)
    requires Spaces(lead)
    ensures var s := SkipSpace(KeyText(lead, key) + tail);
            s != [] && s[0] == '"' && ParseChars(s[1..]) == Done(key, [':', ' '] + tail)
  {
    var s := Quoted(key) + ([':', ' '] + tail);
    assert KeyText(lead, key) + tail == lead + s;
    SkipsSpaces(lead, s);
    assert s[1..] == Escape(key) + ['"'] + ([':', ' '] + tail);
    EscapeRoundTrip(key, [':', ' '] + tail);
  }

  /** What can be read as a value does not start with space. */
  lemma ValueStarts(s: string)
    requires ParseValue(s).Done?
    ensures s != [] && !IsSpace(s[0])
  {
    hide ParseMembers, ParseChars, NumberLength, StartsWith;
    if s == [] || IsSpace(s[0]) {
      NoWordStarts(s);
    }
  }

  lemma NoWordStarts(s: string)
    requires s == [] || IsSpace(s[0])
    ensures !StartsWith(s, "null") && !StartsWith(s, "true") && !StartsWith(s, "false") && NumberLength(s) == 0
  {
    if |s| >= 4 {
      assert s[..4][0] == s[0];
    }
    if |s| >= 5 {
      assert s[..5][0] == s[0];
    }
  }

  /** Key, colon and value of one member, up to the text after it. */
  lemma ItemReads(item: Item, tail: string)
    requires Spaces(item.lead) && ParseValue(Text(item.value) + tail) == Done(Meaning(item.value), tail)
    ensures var s := SkipSpace(KeyText(item.lead, item.key) + (Text(item.value) + tail));
            && s != [] && s[0] == '"'
            && var next := SkipSpace(tail);
            && (next != [] && next[0] == '}' ==> ParseMembers(s) == Done([Member(item.key, Meaning(item.value))], next[1..]))
            && (next != [] && next[0] == ',' && ParseMembers(SkipSpace(next[1..])).Done? ==>
                  var more := ParseMembers(SkipSpace(next[1..]));
                  ParseMembers(s) == Done([Member(item.key, Meaning(item.value))] + more.value, more.rest))
  {
    hide Text, Meaning, ParseValue, KeyText;
    var value := Text(item.value) + tail;
    KeyReads(item.lead, item.key, value);
    ValueStarts(value);
    SkipsSpaces([' '], value);
    var after := [':', ' '] + value;
    assert after[1..] == [' '] + value;
    MembersUnfold(SkipSpace(KeyText(item.lead, item.key) + value), item.key, after, Meaning(item.value), tail);
  }

  lemma MembersUnfold(s: string, key: string, after: string, value: Json, tail: string)
    requires s != [] && s[0] == '"' && ParseChars(s[1..]) == Done(key, after)
    requires SkipSpace(after) == after && after != [] && after[0] == ':'
    requires ParseValue(SkipSpace(after[1..])) == Done(value, tail)
    ensures var next := SkipSpace(tail);
            && (next != [] && next[0] == '}' ==> ParseMembers(s) == Done([Member(key, value)], next[1..]))
            && (next != [] && next[0] == ',' && ParseMembers(SkipSpace(next[1..])).Done? ==>
                  var more := ParseMembers(SkipSpace(next[1..]));
                  ParseMembers(s) == Done([Member(key, value)] + more.value, more.rest))
  {
  }

  lemma {:induction false} ItemsRead(items: seq<Item>, close: string, rest: string)
    requires items != [] && Spaces(close)
    requires forall k :: 0 <= k < |items| ==> Spaces(items[k].lead) && Spaced(items[k].value)
    ensures var s := SkipSpace(ItemsText(items) + (close + ['}'] + rest));
            s != [] && s[0] == '"' && ParseMembers(s) == Done(Members(items), rest)
    decreases items, 0
  {
    var ending := close + ['}'] + rest;
    ClosingStops(close, rest);
    if |items| == 1 {
      OneItemText(items, ending);
      DocReads(items[0].value, ending);
      ItemReads(items[0], ending);
    } else {
      DocReads(items[0].value, [','] + (ItemsText(items[1..]) + ending));
      ItemsRead(items[1..], close, rest);
      MoreItemsRead(items, ending, rest);
    }
  }

  lemma MoreItemsRead(items: seq<Item>, ending: string, rest: string)
    requires |items| > 1 && Spaces(items[0].lead)
    requires var tail := [','] + (ItemsText(items[1..]) + ending);
             ParseValue(Text(items[0].value) + tail) == Done(Meaning(items[0].value), tail)
    requires ParseMembers(SkipSpace(ItemsText(items[1..]) + ending)) == Done(Members(items[1..]), rest)
    ensures var s := SkipSpace(ItemsText(items) + ending);
            s != [] && s[0] == '"' && ParseMembers(s) == Done(Members(items), rest)
  {
    var more := ItemsText(items[1..]) + ending;
    var tail := [','] + more;
    MoreItemsText(items, ending);
    assert tail[1..] == more && SkipSpace(tail) == tail;
    ItemReads(items[0], tail);
  }

  lemma OneItemText(items: seq<Item>, ending: string)
    requires |items| == 1
    ensures ItemsText(items) + ending == KeyText(items[0].lead, items[0].key) + (Text(items[0].value) + ending)
    ensures Members(items) == [Member(items[0].key, Meaning(items[0].value))]
  {
  }

  lemma MoreItemsText(items: seq<Item>, ending: string)
    requires |items| > 1
    ensures ItemsText(items) + ending ==
            KeyText(items[0].lead, items[0].key) + (Text(items[0].value) + ([','] + (ItemsText(items[1..]) + ending)))
  {
    Regroup(KeyText(items[0].lead, items[0].key), Text(items[0].value), [','], ItemsText(items[1..]), ending);
  }

  lemma Regroup(a: string, b: string, c: string, d: string, e: string)
    ensures a + b + c + d + e == a + (b + (c + (d + e)))
  {
  }

  /** After the last value comes space or the brace. */
  lemma ClosingStops(close: string, rest: string)
    requires Spaces(close)
    ensures Stops(close + ['}'] + rest)
    ensures SkipSpace(close + ['}'] + rest) == ['}'] + rest
  {
    assert close + ['}'] + rest == close + (['}'] + rest);
    SkipsSpaces(close, ['}'] + rest);
    if close != [] {
      assert (close + ['}'] + rest)[0] == close[0];
    }
  }

  // ---------------------------------------------------------------- no NUL

  lemma NoNulParts(a: string, b: string)
    requires NoNul(a) && NoNul(b)
    ensures NoNul(a + b)
  {
  }

  lemma QuotedHasNoNul(s: string)
    ensures NoNul(Quoted(s))
  {
    EscapeHasNoControls(s);
  }

  lemma SpacesHaveNoNul(s: string)
    requires Spaces(s)
    ensures NoNul(s)
  {
  }

  /** A printed document can be measured by the position of its first NUL. */
  lemma {:induction false} TextHasNoNul(d: Doc)
    requires Spaced(d)
    ensures NoNul(Text(d))
    decreases d, 1
  {
    match d {
      case DNull => assert NoNul("null");
      case DBool(b) => assert NoNul("true") && NoNul("false");
      case DNumber(_) =>
      case DStr(v) => QuotedHasNoNul(v);
      case DObject(items, close) =>
        ItemsHaveNoNul(items);
        SpacesHaveNoNul(close);
        NoNulParts(['{'], ItemsText(items));
        NoNulParts(['{'] + ItemsText(items), close);
        NoNulParts(['{'] + ItemsText(items) + close, ['}']);
    }
  }

  lemma {:induction false} ItemsHaveNoNul(items: seq<Item>)
    requires forall k :: 0 <= k < |items| ==> Spaces(items[k].lead) && Spaced(items[k].value)
    ensures NoNul(ItemsText(items))
    decreases items, 0
  {
    if items != [] {
      var item := items[0];
      var key, value := KeyText(item.lead, item.key), Text(item.value);
      SpacesHaveNoNul(item.lead);
      QuotedHasNoNul(item.key);
      NoNulParts(item.lead, Quoted(item.key));
      NoNulParts(item.lead + Quoted(item.key), [':', ' ']);
      TextHasNoNul(item.value);
      NoNulParts(key, value);
      if |items| > 1 {
        ItemsHaveNoNul(items[1..]);
        NoNulParts(key + value, [',']);
        NoNulParts(key + value + [','], ItemsText(items[1..]));
      }
    }
  }
}
