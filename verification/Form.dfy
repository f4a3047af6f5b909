/** The decoder of posted forms: key and value are assembled one after the other in a
    single buffer of the body's size. */
module Form {
  import opened CStrings

  type Byte = b: nat | b < 256

  const MAX_POST_BODY_LEN: nat := 4096

  const PLUS: Byte := 43
  const SPACE: Byte := 32
  const EQUALS: Byte := 61
  const AMPERSAND: Byte := 38
  const PERCENT: Byte := 37

  type Fields = map<seq<Byte>, seq<Byte>>

  datatype Reply = Ok(fields: Fields) | NoBody | BadLength | BadPercent

  predicate IsHex(b: Byte) { 48 <= b <= 57 || 65 <= b <= 70 || 97 <= b <= 102 }

  function HexValue(b: Byte): (v: nat)
    requires IsHex(b)
    ensures v < 16
  {
    if b <= 57 then b - 48 else if b <= 70 then b - 55 else b - 87
  }

  // ---------------------------------------------------------------- what a body means

  /** The pair under way: the text before the first raw '=', and the text after the last
      one, if there has been one. */
  datatype Pair = Pair(key: seq<Byte>, hasValue: bool, value: seq<Byte>)

  const BLANK: Pair := Pair([], false, [])

  function Append(p: Pair, b: Byte): Pair {
    if p.hasValue then p.(value := p.value + [b]) else p.(key := p.key + [b])
  }

  /** A finished pair is kept if it has a value portion and its key is not empty. */
  function Commit(fields: Fields, p: Pair): Fields {
    if p.hasValue && p.key != [] && p.key[0] != 0 then fields[CString(p.key, 0) := CString(p.value, 0)] else fields
  }

  function Decode(rest: seq<Byte>, fields: Fields, p: Pair): Reply
    decreases |rest|
  {
    if rest == [] then Ok(Commit(fields, p))
    else if rest[0] == EQUALS then Decode(rest[1..], fields, p.(hasValue := true, value := []))
    else if rest[0] == AMPERSAND then Decode(rest[1..], Commit(fields, p), BLANK)
    else if rest[0] != PERCENT then Decode(rest[1..], fields, Append(p, if rest[0] == PLUS then SPACE else rest[0]))
    else if |rest| <= 2 then Ok(Commit(fields, p))
    else if !IsHex(rest[1]) || !IsHex(rest[2]) then BadPercent
    else Decode(rest[3..], fields, Append(p, HexValue(rest[1]) * 16 + HexValue(rest[2])))
  }

  /** What a byte of the body means: '=' (61) begins the value, again if there is one
      already, '&' (38) ends the pair, '+' (43) is a space (32), and any other byte but '%'
      (37) is itself. */
  lemma ByteMeans(b: Byte, rest: seq<Byte>, fields: Fields, p: Pair)
    requires b != 37
    ensures Decode([b] + rest, fields, p) ==
              if b == 61 then Decode(rest, fields, Pair(p.key, true, []))
              else if b == 38 then Decode(rest, Commit(fields, p), Pair([], false, []))
              else
                var read: Byte := if b == 43 then 32 else b;
                Decode(rest, fields, if p.hasValue then Pair(p.key, true, p.value + [read]) else Pair(p.key + [read], false, p.value))
  {
    assert ([b] + rest)[1..] == rest;
  }

  /** Two hexadecimal digits after a '%', capital or small, are the byte they write; anything
      else after it is refused, and where fewer than two bytes are left the body ends. */
  lemma PercentMeans(h: Byte, l: Byte, rest: seq<Byte>, fields: Fields, p: Pair)
    ensures (forall v, w :: 0 <= v < 16 && 0 <= w < 16 && Writes(h, v) && Writes(l, w) ==>
              Decode([37, h, l] + rest, fields, p) == Decode(rest, fields, Append(p, 16 * v + w)))
    ensures (forall v :: 0 <= v < 16 ==> !Writes(h, v)) || (forall w :: 0 <= w < 16 ==> !Writes(l, w)) ==>
              Decode([37, h, l] + rest, fields, p) == BadPercent
    ensures Decode([37], fields, p) == Decode([37, h], fields, p) == Ok(Commit(fields, p))
  {
    var all := [37, h, l] + rest;
    assert all[3..] == rest;
    DigitIsHex(h);
    DigitIsHex(l);
  }

  /** Is the byte a hexadecimal digit for v? */
  predicate Writes(b: Byte, v: int)
    requires 0 <= v < 16
  {
    b == "0123456789ABCDEF"[v] as int || b == "0123456789abcdef"[v] as int
  }

  lemma DigitIsHex(b: Byte)
    ensures forall v :: 0 <= v < 16 && Writes(b, v) ==> IsHex(b) && HexValue(b) == v
    ensures IsHex(b) ==> Writes(b, HexValue(b))
  {
  }

  // ---------------------------------------------------------------- the buffer

  /** The buffer holds the pair under way: the key at its start, ended by a NUL once a
      value has begun, and the value at `start` up to the write offset. */
  ghost predicate Holds(buf: seq<Byte>, offset: nat, start: nat, p: Pair) {
    if p.hasValue then
      && |p.key| < start <= offset <= |buf|
      && buf[..|p.key|] == p.key && buf[|p.key|] == 0
      && buf[start..offset] == p.value
    else
      offset == |p.key| && offset <= |buf| && buf[..offset] == p.key
  }

  lemma {:induction false} CStringStops(t: seq<Byte>, s: seq<Byte>)
    requires |s| < |t| && t[..|s|] == s && t[|s|] == 0
    ensures CString(t, 0) == CString(s, 0)
    decreases |s|
  {
    if s != [] {
      assert t[0] == s[0];
      assert t[1..][..|s| - 1] == s[1..];
      CStringStops(t[1..], s[1..]);
    }
  }

  /** The C strings in the buffer, once the value is ended by a NUL, are the pair's. */
  lemma BufferCommits(buf: seq<Byte>, offset: nat, start: nat, p: Pair)
    requires Holds(buf, offset, start, p) && offset < |buf| && buf[offset] == 0 && p.hasValue
    ensures buf[0] != 0 <==> p.key != [] && p.key[0] != 0
    ensures CString(buf[0..], 0) == CString(p.key, 0) && CString(buf[start..], 0) == CString(p.value, 0)
  {
    assert buf[0..] == buf;
    CStringStops(buf, p.key);
    assert buf[start..][..|p.value|] == p.value && buf[start..][|p.value|] == 0;
    CStringStops(buf[start..], p.value);
    if p.key != [] {
      assert buf[0] == p.key[0];
    }
  }

  lemma HoldsNothing(buf: seq<Byte>, start: nat)
    ensures Holds(buf, 0, start, BLANK)
  {
  }

  /** A byte at the write offset goes to the end of the pair's current part. */
  lemma HoldsByte(buf: seq<Byte>, offset: nat, start: nat, p: Pair, ch: Byte)
    requires Holds(buf, offset, start, p) && offset < |buf|
    ensures Holds(buf[offset := ch], offset + 1, start, Append(p, ch))
  {
    var after := buf[offset := ch];
    if p.hasValue {
      assert after[start..offset + 1] == buf[start..offset] + [ch];
      assert after[..|p.key|] == buf[..|p.key|];
    } else {
      assert after[..offset + 1] == buf[..offset] + [ch];
    }
  }

  /** Two NULs at the write offset end the key, or start the value again. */
  lemma HoldsKey(buf: seq<Byte>, offset: nat, start: nat, p: Pair)
    requires Holds(buf, offset, start, p) && offset + 1 < |buf|
    ensures Holds(buf[offset := 0][offset + 1 := 0], offset + 1, offset + 1, p.(hasValue := true, value := []))
  {
    assert buf[offset := 0][offset + 1 := 0][..|p.key|] == buf[..|p.key|];
  }

  /** A NUL at the write offset changes nothing before it. */
  lemma HoldsEnd(buf: seq<Byte>, offset: nat, start: nat, p: Pair)
    requires Holds(buf, offset, start, p) && offset < |buf|
    ensures Holds(buf[offset := 0], offset, start, p)
  {
    var after := buf[offset := 0];
    if p.hasValue {
      assert after[start..offset] == buf[start..offset] && after[..|p.key|] == buf[..|p.key|];
    } else {
      assert after[..offset] == buf[..offset];
    }
  }

  /** The decoder at position i of a body. */
  lemma DecodeAt(data: seq<Byte>, i: nat, fields: Fields, p: Pair)
    requires i < |data|
    ensures Decode(data[i..], fields, p) ==
              if data[i] == EQUALS then Decode(data[i + 1..], fields, p.(hasValue := true, value := []))
              else if data[i] == AMPERSAND then Decode(data[i + 1..], Commit(fields, p), BLANK)
              else if data[i] != PERCENT then Decode(data[i + 1..], fields, Append(p, if data[i] == PLUS then SPACE else data[i]))
              else if i + 2 >= |data| then Ok(Commit(fields, p))
              else if !IsHex(data[i + 1]) || !IsHex(data[i + 2]) then BadPercent
              else Decode(data[i + 3..], fields, Append(p, HexValue(data[i + 1]) * 16 + HexValue(data[i + 2])))
  {
    hide Commit, HexValue;
    var rest := data[i..];
    assert rest[1..] == data[i + 1..];
    if i + 2 < |data| {
      assert rest[3..] == data[i + 3..];
    }
  }

  lemma DecodeEnd(fields: Fields, p: Pair)
    ensures Decode([], fields, p) == Ok(Commit(fields, p))
  {
  }

  method StoreByte(buf: array<Byte>, i: nat, b: Byte)
    requires i < buf.Length
    modifies buf
    ensures buf[..] == old(buf[..])[i := b]
  {
    buf[i] := b;
  }

  /** parsePost, from the bytes of the body on. */
  method ParsePost(present: bool, data: seq<Byte>) returns (reply: Reply)
    ensures reply == if !present then NoBody
                     else if |data| >= 4096 || |data| < 1 then BadLength
                     else Decode(data, map[], BLANK)
  {
    hide Commit, Holds, HexValue, Decode;
    if !present {
      return NoBody;
    }
    var bodyLen := |data|;
    if bodyLen >= MAX_POST_BODY_LEN || bodyLen < 1 {
      return BadLength;
    }
    var postValues: Fields := map[];
    var gettingValuePortion := false;
    var tmpBuffer := new Byte[bodyLen + 1](_ => 0);
    var tmpBufferOffset := 0;
    var currValue := 0;
    ghost var p := BLANK;
    HoldsNothing(tmpBuffer[..], currValue);
    var i := 0;
    while i < bodyLen
      invariant 0 <= i <= bodyLen && tmpBufferOffset <= i
      invariant gettingValuePortion == p.hasValue
      invariant Holds(tmpBuffer[..], tmpBufferOffset, currValue, p)
      invariant Decode(data, map[], BLANK) == Decode(data[i..], postValues, p)
    {
      DecodeAt(data, i, postValues, p);
      var ch := data[i];
      if ch == PLUS {
        ch := SPACE;
      }
      if ch == EQUALS {
        HoldsKey(tmpBuffer[..], tmpBufferOffset, currValue, p);
        StoreByte(tmpBuffer, tmpBufferOffset, 0);
        tmpBufferOffset := tmpBufferOffset + 1;
        currValue := tmpBufferOffset;
        StoreByte(tmpBuffer, tmpBufferOffset, 0);
        gettingValuePortion := true;
        p := p.(hasValue := true, value := []);
        i := i + 1;
        continue;
      }
      if ch == AMPERSAND {
        postValues := CommitPair(tmpBuffer, tmpBufferOffset, currValue, gettingValuePortion, postValues, p);
        tmpBufferOffset := 0;
        StoreByte(tmpBuffer, 0, 0);
        HoldsNothing(tmpBuffer[..], currValue);
        gettingValuePortion := false;
        p := BLANK;
        i := i + 1;
        continue;
      }
      if ch == PERCENT {
        if i >= bodyLen - 2 {
          HoldsEnd(tmpBuffer[..], tmpBufferOffset, currValue, p);
          StoreByte(tmpBuffer, tmpBufferOffset, 0);
          break;
        }
        if !IsHex(data[i + 1]) || !IsHex(data[i + 2]) {
          return BadPercent;
        }
        ch := HexValue(data[i + 1]) * 16 + HexValue(data[i + 2]);
        i := i + 2;
      }
      HoldsByte(tmpBuffer[..], tmpBufferOffset, currValue, p, ch);
      StoreByte(tmpBuffer, tmpBufferOffset, ch);
      tmpBufferOffset := tmpBufferOffset + 1;
      p := Append(p, ch);
      i := i + 1;
    }
    if i == bodyLen {
      assert data[i..] == [];
      DecodeEnd(postValues, p);
    }
    postValues := CommitPair(tmpBuffer, tmpBufferOffset, currValue, gettingValuePortion, postValues, p);
    reply := Ok(postValues);
  }

  /** Ends the value and stores the two C strings, if there is a value and a key. */
  method CommitPair(buf: array<Byte>, offset: nat, currValue: nat, hasValue: bool, fields: Fields, ghost p: Pair) returns (r: Fields)
    requires offset < buf.Length && hasValue == p.hasValue && Holds(buf[..], offset, currValue, p)
    modifies buf
    ensures r == Commit(fields, p)
  {
    r := fields;
    if hasValue {
      KeyStart(buf[..], offset, currValue, p);
      if buf[0] != 0 {
        buf[offset] := 0;
        BufferCommits(buf[..], offset, currValue, p);
        r := fields[CString(buf[0..], 0) := CString(buf[currValue..], 0)];
      }
    }
  }

  lemma KeyStart(buf: seq<Byte>, offset: nat, start: nat, p: Pair)
    requires Holds(buf, offset, start, p) && p.hasValue
    ensures |buf| > 0 && (buf[0] != 0 <==> p.key != [] && p.key[0] != 0)
  {
  }

  // ---------------------------------------------------------------- the reference encoding

  /** Bytes that the serializer leaves alone: letters, digits, and * - . _ */
  predicate Plain(b: Byte) {
    48 <= b <= 57 || 65 <= b <= 90 || 97 <= b <= 122 || b == 42 || b == 45 || b == 46 || b == 95
  }

  function HexDigit(v: nat): Byte
    requires v < 16
  {
    if v < 10 then 48 + v else 55 + v
  }

  function EncodeByte(b: Byte): (e: seq<Byte>)
    ensures b == 32 ==> e == [43]
    ensures 48 <= b <= 57 || 65 <= b <= 90 || 97 <= b <= 122 || b in [42, 45, 46, 95] ==> e == [b]
    ensures b != 32 && !Plain(b) ==> |e| == 3 && e[0] == 37
  {
    if b == SPACE then [PLUS] else if Plain(b) then [b] else [PERCENT, HexDigit(b / 16), HexDigit(b % 16)]
  }

  function EncodeText(s: seq<Byte>): seq<Byte> {
    if s == [] then [] else EncodeByte(s[0]) + EncodeText(s[1..])
  }

  function EncodePair(key: seq<Byte>, value: seq<Byte>): seq<Byte> {
    EncodeText(key) + [EQUALS] + EncodeText(value)
  }

  /** The pairs joined by '&'. */
  function EncodeForm(pairs: seq<(seq<Byte>, seq<Byte>)>): seq<Byte> {
    if pairs == [] then []
    else if |pairs| == 1 then EncodePair(pairs[0].0, pairs[0].1)
    else EncodePair(pairs[0].0, pairs[0].1) + [AMPERSAND] + EncodeForm(pairs[1..])
  }

  /** The pairs as a map, on top of another. */
  function Collect(fields: Fields, pairs: seq<(seq<Byte>, seq<Byte>)>): Fields
    decreases pairs
  {
    if pairs == [] then fields else Collect(fields[pairs[0].0 := pairs[0].1], pairs[1..])
  }

  predicate NulFree(s: seq<Byte>) { forall k :: 0 <= k < |s| ==> s[k] != 0 }

  lemma {:induction false} CStringOfNulFree(s: seq<Byte>)
    requires NulFree(s)
    ensures CString(s, 0) == s
  {
    if s != [] {
      CStringOfNulFree(s[1..]);
    }
  }

  function AppendAll(p: Pair, s: seq<Byte>): Pair {
    if p.hasValue then p.(value := p.value + s) else p.(key := p.key + s)
  }

  lemma AppendBoth(p: Pair, b: Byte, s: seq<Byte>)
    ensures AppendAll(Append(p, b), s) == AppendAll(p, [b] + s)
  {
    assert p.value + [b] + s == p.value + ([b] + s);
    assert p.key + [b] + s == p.key + ([b] + s);
  }

  lemma DecodeEncodedByte(b: Byte, rest: seq<Byte>, fields: Fields, p: Pair)
    ensures Decode(EncodeByte(b) + rest, fields, p) == Decode(rest, fields, Append(p, b))
  {
    var e := EncodeByte(b);
    var all := e + rest;
    assert all[|e|..] == rest;
    if b != SPACE && !Plain(b) {
      assert all[0] == PERCENT && all[1] == HexDigit(b / 16) && all[2] == HexDigit(b % 16);
      assert HexValue(HexDigit(b / 16)) == b / 16 && HexValue(HexDigit(b % 16)) == b % 16;
    }
  }

  lemma {:induction false} DecodeEncodedText(s: seq<Byte>, rest: seq<Byte>, fields: Fields, p: Pair)
    ensures Decode(EncodeText(s) + rest, fields, p) == Decode(rest, fields, AppendAll(p, s))
    decreases |s|
  {
    hide Decode, EncodeByte;
    if s == [] {
      assert EncodeText(s) + rest == rest;
      assert AppendAll(p, s) == p;
    } else {
      var tail := EncodeText(s[1..]) + rest;
      assert EncodeText(s) + rest == EncodeByte(s[0]) + tail;
      DecodeEncodedByte(s[0], tail, fields, p);
      DecodeEncodedText(s[1..], rest, fields, Append(p, s[0]));
      assert [s[0]] + s[1..] == s;
      AppendBoth(p, s[0], s[1..]);
    }
  }

  lemma DecodeEncodedPair(key: seq<Byte>, value: seq<Byte>, rest: seq<Byte>, fields: Fields)
    ensures Decode(EncodePair(key, value) + rest, fields, BLANK) == Decode(rest, fields, Pair(key, true, value))
  {
    var afterKey := [EQUALS] + (EncodeText(value) + rest);
    assert EncodePair(key, value) + rest == EncodeText(key) + afterKey;
    DecodeEncodedText(key, afterKey, fields, BLANK);
    assert [] + key == key && [] + value == value;
    assert afterKey[1..] == EncodeText(value) + rest;
    DecodeEncodedText(value, rest, fields, Pair(key, true, []));
  }

  predicate Postable(pairs: seq<(seq<Byte>, seq<Byte>)>) {
    forall k :: 0 <= k < |pairs| ==> pairs[k].0 != [] && NulFree(pairs[k].0) && NulFree(pairs[k].1)
  }

  /** Decoding undoes the reference encoding, for any pairs whose keys are not empty and
      that have no NUL in them. */
  lemma {:induction false} FormRoundTrip(pairs: seq<(seq<Byte>, seq<Byte>)>, fields: Fields)
    requires pairs != [] && Postable(pairs)
    ensures Decode(EncodeForm(pairs), fields, BLANK) == Ok(Collect(fields, pairs))
    decreases |pairs|
  {
    hide Decode, EncodePair;
    var key, value := pairs[0].0, pairs[0].1;
    CStringOfNulFree(key);
    CStringOfNulFree(value);
    var more := fields[key := value];
    assert Commit(fields, Pair(key, true, value)) == more;
    if |pairs| == 1 {
      assert EncodePair(key, value) + [] == EncodeForm(pairs);
      DecodeEncodedPair(key, value, [], fields);
      DecodeEnd(fields, Pair(key, true, value));
      assert Collect(more, pairs[1..]) == more;
    } else {
      var rest := [AMPERSAND] + EncodeForm(pairs[1..]);
      assert EncodeForm(pairs) == EncodePair(key, value) + rest;
      DecodeEncodedPair(key, value, rest, fields);
      DecodeAt(rest, 0, fields, Pair(key, true, value));
      assert rest[0..] == rest && rest[1..] == EncodeForm(pairs[1..]);
      FormRoundTrip(pairs[1..], more);
    }
  }

  /** Pairs that list a map, in any order. */
  ghost predicate Lists(pairs: seq<(seq<Byte>, seq<Byte>)>, m: Fields) {
    && (forall i, j :: 0 <= i < j < |pairs| ==> pairs[i].0 != pairs[j].0)
    && (forall i :: 0 <= i < |pairs| ==> pairs[i].0 in m && m[pairs[i].0] == pairs[i].1)
    && (forall k :: k in m ==> exists i :: 0 <= i < |pairs| && pairs[i].0 == k)
  }

  lemma {:induction false} Collected(fields: Fields, pairs: seq<(seq<Byte>, seq<Byte>)>)
    requires forall i, j :: 0 <= i < j < |pairs| ==> pairs[i].0 != pairs[j].0
    ensures var r := Collect(fields, pairs);
            && (forall i :: 0 <= i < |pairs| ==> pairs[i].0 in r && r[pairs[i].0] == pairs[i].1)
            && (forall k :: k in fields && (forall i :: 0 <= i < |pairs| ==> pairs[i].0 != k) ==> k in r && r[k] == fields[k])
            && (forall k :: k in r ==> k in fields || exists i :: 0 <= i < |pairs| && pairs[i].0 == k)
    decreases pairs
  {
    if pairs != [] {
      var first, more := fields[pairs[0].0 := pairs[0].1], pairs[1..];
      Collected(first, more);
      forall k | k in Collect(fields, pairs) && k !in fields
        ensures exists i :: 0 <= i < |pairs| && pairs[i].0 == k
      {
        if k != pairs[0].0 {
          assert k in Collect(first, more) && k !in first;
          var i :| 0 <= i < |more| && more[i].0 == k;
          assert pairs[i + 1].0 == k;
        }
      }
    }
  }

  /** A text without '=' gives no field, and neither does one whose key is empty. */
  lemma NoField(text: seq<Byte>, fields: Fields)
    ensures Decode(EncodeText(text), fields, BLANK) == Ok(fields)
    ensures Decode([61] + EncodeText(text), fields, BLANK) == Ok(fields)
  {
    hide Decode, EncodeText;
    assert EncodeText(text) + [] == EncodeText(text) && [] + text == text;
    DecodeEncodedText(text, [], fields, BLANK);
    DecodeEnd(fields, Pair(text, false, []));
    DecodeValue(text, [], fields, BLANK);
    assert [EQUALS] + EncodeText(text) + [] == [61] + EncodeText(text);
    DecodeEnd(fields, Pair([], true, text));
  }

  /** A map, encoded in any order of its pairs, posts back as that map. */
  lemma MapRoundTrip(m: Fields, pairs: seq<(seq<Byte>, seq<Byte>)>)
    requires m != map[] && Lists(pairs, m) && Postable(pairs)
    ensures Decode(EncodeForm(pairs), map[], BLANK) == Ok(m)
  {
    CollectsTo(m, pairs);
    FormRoundTrip(pairs, map[]);
  }

  lemma CollectsTo(m: Fields, pairs: seq<(seq<Byte>, seq<Byte>)>)
    requires Lists(pairs, m)
    ensures Collect(map[], pairs) == m
  {
    Collected(map[], pairs);
    var r := Collect(map[], pairs);
    assert forall k :: k in r ==> k in m && r[k] == m[k];
  }

  /** Raw '=' after the first: only the text after the last one is the value. */
  function EncodeValues(values: seq<seq<Byte>>): seq<Byte> {
    if values == [] then [] else [EQUALS] + EncodeText(values[0]) + EncodeValues(values[1..])
  }

  lemma DecodeEquals(rest: seq<Byte>, fields: Fields, p: Pair)
    ensures Decode([EQUALS] + rest, fields, p) == Decode(rest, fields, p.(hasValue := true, value := []))
  {
    assert ([EQUALS] + rest)[1..] == rest;
  }

  /** One '=' and the text up to the next. */
  lemma DecodeValue(value: seq<Byte>, rest: seq<Byte>, fields: Fields, p: Pair)
    ensures Decode([EQUALS] + EncodeText(value) + rest, fields, p) == Decode(rest, fields, Pair(p.key, true, value))
  {
    hide Decode, EncodeText;
    assert [EQUALS] + EncodeText(value) + rest == [EQUALS] + (EncodeText(value) + rest);
    DecodeEquals(EncodeText(value) + rest, fields, p);
    DecodeEncodedText(value, rest, fields, Pair(p.key, true, []));
    assert [] + value == value;
  }

  lemma {:induction false} LastValueWins(p: Pair, values: seq<seq<Byte>>, fields: Fields)
    requires values != []
    ensures Decode(EncodeValues(values), fields, p) == Ok(Commit(fields, Pair(p.key, true, values[|values| - 1])))
    decreases |values|
  {
    var rest := EncodeValues(values[1..]);
    DecodeValue(values[0], rest, fields, p);
    if |values| == 1 {
      assert rest == [];
    } else {
      LastValueWins(Pair(p.key, true, values[0]), values[1..], fields);
    }
  }

  /** A field with any number of raw '=' yields its key and the text after the last. */
  lemma ExtraEquals(key: seq<Byte>, values: seq<seq<Byte>>)
    requires key != [] && NulFree(key) && values != [] && NulFree(values[|values| - 1])
    ensures Decode(EncodeText(key) + EncodeValues(values), map[], BLANK) == Ok(map[key := values[|values| - 1]])
  {
    var last := values[|values| - 1];
    DecodeEncodedText(key, EncodeValues(values), map[], BLANK);
    assert [] + key == key;
    LastValueWins(Pair(key, false, []), values, map[]);
    CStringOfNulFree(key);
    CStringOfNulFree(last);
  }
}
