/** Bencoded values (BEP 3, section "bencoding"): what they encode to, and what a generic reader makes of bytes. */
module Bencode {

  /** One character per byte. */
  type Bytes = string

  const MAX_INT: nat := 0x7fff_ffff_ffff_ffff
  const TWO_64: nat := 0x1_0000_0000_0000_0000

  /** A decoded value. Integers keep their text, which the reader never interprets. */
  datatype Value = Int(text: Bytes) | Str(bytes: Bytes) | List(items: Values) | Dict(entries: Entries)
  datatype Values = NoValues | Values(head: Value, tail: Values)
  datatype Entries = NoEntries | Entry(key: Bytes, value: Value, rest: Entries)

  datatype Reading<+T> = Rejected | Accepted(value: T, end: nat)

  predicate IsDigit(c: char) {
    '0' <= c <= '9'
  }

  predicate AllDigits(s: Bytes) {
    forall k :: 0 <= k < |s| ==> IsDigit(s[k])
  }

  function Number(s: Bytes): nat
    requires AllDigits(s)
  {
    if s == "" then 0 else 10 * Number(s[..|s| - 1]) + (s[|s| - 1] as int - '0' as int)
  }

  function Digit(n: nat): char
    requires n < 10
  {
    ('0' as int + n) as char
  }

  function Itoa(n: nat): (s: Bytes)
    ensures AllDigits(s) && s != "" && Number(s) == n
  {
    if n < 10 then [Digit(n)] else Itoa(n / 10) + [Digit(n % 10)]
  }

  /** The first position from i on that holds no digit. */
  function DigitsEnd(data: Bytes, i: nat): (e: nat)
    requires i <= |data|
    ensures i <= e <= |data| && AllDigits(data[i..e]) && (e < |data| ==> !IsDigit(data[e]))
    decreases |data| - i
  {
    if i < |data| && IsDigit(data[i]) then
      var e := DigitsEnd(data, i + 1);
      assert data[i..e] == [data[i]] + data[i + 1..e];
      e
    else i
  }

  function IndexOfE(data: Bytes, i: nat): (e: nat)
    requires i <= |data|
    ensures i <= e <= |data| && (forall k :: i <= k < e ==> data[k] != 'e') && (e < |data| ==> data[e] == 'e')
    decreases |data| - i
  {
    if i < |data| && data[i] != 'e' then IndexOfE(data, i + 1) else i
  }

  /** A length-prefixed byte string at position i. */
  function ReadString(data: Bytes, i: nat): (r: Reading<Bytes>)
    ensures r.Accepted? ==> i < r.end <= |data|
  {
    if i >= |data| || !IsDigit(data[i]) then Rejected
    else
      var colon := DigitsEnd(data, i);
      if colon >= |data| || data[colon] != ':' then Rejected
      else
        var n := Number(data[i..colon]);
        var start := colon + 1;
        if n > MAX_INT || start + n > |data| then Rejected else Accepted(data[start..start + n], start + n)
  }

  function ReadInt(data: Bytes, i: nat): (r: Reading<Bytes>)
    requires i < |data| && data[i] == 'i'
    ensures r.Accepted? ==> i < r.end <= |data|
  {
    var end := IndexOfE(data, i + 1);
    if end >= |data| || end == i + 1 then Rejected else Accepted(data[i + 1..end], end + 1)
  }

  // ---- the generic reader -------------------------------------------------------------------

  function Decode(data: Bytes, i: nat): (r: Reading<Value>)
    ensures r.Accepted? ==> i < r.end <= |data|
    decreases |data| - i, 1
  {
    if i >= |data| then Rejected
    else if data[i] == 'i' then
      match ReadInt(data, i) case Rejected => Rejected case Accepted(t, e) => Accepted(Int(t), e)
    else if data[i] == 'l' then
      match DecodeItems(data, i + 1) case Rejected => Rejected case Accepted(vs, e) => Accepted(List(vs), e)
    else if data[i] == 'd' then
      match DecodeEntries(data, i + 1) case Rejected => Rejected case Accepted(es, e) => Accepted(Dict(es), e)
    else
      match ReadString(data, i) case Rejected => Rejected case Accepted(b, e) => Accepted(Str(b), e)
  }

  function DecodeItems(data: Bytes, j: nat): (r: Reading<Values>)
    ensures r.Accepted? ==> j < r.end <= |data|
    decreases |data| - j, 2
  {
    if j >= |data| then Rejected
    else if data[j] == 'e' then Accepted(NoValues, j + 1)
    else
      match Decode(data, j)
      case Rejected => Rejected
      case Accepted(v, next) =>
        match DecodeItems(data, next)
        case Rejected => Rejected
        case Accepted(vs, e) => Accepted(Values(v, vs), e)
  }

  function DecodeEntries(data: Bytes, j: nat): (r: Reading<Entries>)
    ensures r.Accepted? ==> j < r.end <= |data|
    decreases |data| - j, 2
  {
    if j >= |data| then Rejected
    else if data[j] == 'e' then Accepted(NoEntries, j + 1)
    else
      match ReadString(data, j)
      case Rejected => Rejected
      case Accepted(key, at) =>
        match Decode(data, at)
        case Rejected => Rejected
        case Accepted(v, next) =>
          match DecodeEntries(data, next)
          case Rejected => Rejected
          case Accepted(es, e) => Accepted(Entry(key, v, es), e)
  }

  lemma Closed(data: Bytes, i: nat)
    requires i < |data| && data[i] == 'e'
    ensures DecodeItems(data, i) == Accepted(NoValues, i + 1) && DecodeEntries(data, i) == Accepted(NoEntries, i + 1)
  {
  }

  lemma ItemRead(data: Bytes, i: nat, v: Value, next: nat, vs: Values)
    requires i < |data| && data[i] != 'e' && Decode(data, i) == Accepted(v, next)
    requires DecodeItems(data, next).Accepted? && DecodeItems(data, next).value == vs
    ensures DecodeItems(data, i) == Accepted(Values(v, vs), DecodeItems(data, next).end)
  {
  }

  lemma EntryRead(data: Bytes, i: nat, key: Bytes, at: nat, v: Value, next: nat, es: Entries)
    requires i < |data| && data[i] != 'e' && ReadString(data, i) == Accepted(key, at)
    requires Decode(data, at) == Accepted(v, next) && DecodeEntries(data, next).Accepted? &&
      DecodeEntries(data, next).value == es
    ensures DecodeEntries(data, i) == Accepted(Entry(key, v, es), DecodeEntries(data, next).end)
  {
  }

  /** How a non-empty item list was read. */
  lemma ItemSteps(data: Bytes, i: nat)
    requires DecodeItems(data, i).Accepted? && data[i] != 'e'
    ensures var r := DecodeItems(data, i);
            && Decode(data, i).Accepted?
            && var next := Decode(data, i).end;
            && DecodeItems(data, next).Accepted? && DecodeItems(data, next).end == r.end
            && r.value == Values(Decode(data, i).value, DecodeItems(data, next).value)
  {
  }

  /** How a non-empty entry list was read. */
  lemma EntrySteps(data: Bytes, i: nat)
    requires DecodeEntries(data, i).Accepted? && data[i] != 'e'
    ensures var r := DecodeEntries(data, i);
            && ReadString(data, i).Accepted?
            && var at := ReadString(data, i).end;
            && Decode(data, at).Accepted?
            && var next := Decode(data, at).end;
            && DecodeEntries(data, next).Accepted? && DecodeEntries(data, next).end == r.end
            && r.value == Entry(ReadString(data, i).value, Decode(data, at).value, DecodeEntries(data, next).value)
  {
  }

  // ---- locality: only the consumed bytes matter ------------------------------------------------

  /** data'[j..] starts with the bytes data[i..e]. */
  ghost predicate Copied(data: Bytes, i: nat, e: nat, data': Bytes, j: nat) {
    i <= e <= |data| && j + (e - i) <= |data'| && data'[j..j + (e - i)] == data[i..e]
  }

  lemma SliceOfSlice(s: Bytes, lo: nat, hi: nat, a: nat, b: nat)
    requires lo <= hi <= |s| && a <= b <= hi - lo
    ensures s[lo..hi][a..b] == s[lo + a..lo + b]
  {
    var t, u := s[lo..hi][a..b], s[lo + a..lo + b];
    forall k | 0 <= k < |t| ensures t[k] == u[k] {
      assert t[k] == s[lo..hi][a + k] == s[lo + a + k];
    }
  }

  lemma CopiedPart(data: Bytes, i: nat, e: nat, data': Bytes, j: nat, a: nat, b: nat)
    requires Copied(data, i, e, data', j) && i <= a <= b <= e
    ensures Copied(data, a, b, data', j + (a - i))
  {
    SliceOfSlice(data, i, e, a - i, b - i);
    SliceOfSlice(data', j, j + (e - i), a - i, b - i);
  }

  lemma {:induction false} DigitsLocal(data: Bytes, i: nat, data': Bytes, j: nat)
    requires i <= |data| && DigitsEnd(data, i) < |data| && Copied(data, i, DigitsEnd(data, i) + 1, data', j)
    ensures DigitsEnd(data', j) - j == DigitsEnd(data, i) - i
    decreases |data| - i
  {
    var e := DigitsEnd(data, i) + 1;
    if IsDigit(data[i]) {
      CopiedPart(data, i, e, data', j, i + 1, e);
      DigitsLocal(data, i + 1, data', j + 1);
    }
  }

  lemma StringLocal(data: Bytes, i: nat, data': Bytes, j: nat)
    requires ReadString(data, i).Accepted? && Copied(data, i, ReadString(data, i).end, data', j)
    ensures ReadString(data', j) == Accepted(ReadString(data, i).value, j + (ReadString(data, i).end - i))
  {
    var e := ReadString(data, i).end;
    var colon := DigitsEnd(data, i);
    CopiedPart(data, i, e, data', j, i, colon + 1);
    DigitsLocal(data, i, data', j);
    CopiedPart(data, i, e, data', j, i, colon);
    CopiedPart(data, i, e, data', j, colon + 1, e);
  }

  lemma {:induction false} IndexLocal(data: Bytes, i: nat, data': Bytes, j: nat)
    requires i <= |data| && IndexOfE(data, i) < |data| && Copied(data, i, IndexOfE(data, i) + 1, data', j)
    ensures IndexOfE(data', j) - j == IndexOfE(data, i) - i
    decreases |data| - i
  {
    var e := IndexOfE(data, i) + 1;
    if data[i] != 'e' {
      CopiedPart(data, i, e, data', j, i + 1, e);
      IndexLocal(data, i + 1, data', j + 1);
    }
  }

  lemma IntLocal(data: Bytes, i: nat, data': Bytes, j: nat)
    requires i < |data| && data[i] == 'i' && ReadInt(data, i).Accepted? &&
      Copied(data, i, ReadInt(data, i).end, data', j)
    ensures j < |data'| && data'[j] == 'i' &&
      ReadInt(data', j) == Accepted(ReadInt(data, i).value, j + (ReadInt(data, i).end - i))
  {
    var e := ReadInt(data, i).end;
    CopiedPart(data, i, e, data', j, i + 1, e);
    IndexLocal(data, i + 1, data', j + 1);
    CopiedPart(data, i, e, data', j, i + 1, e - 1);
  }

  /** A value read at i is read wherever its bytes stand, whatever stands around them. */
  lemma {:induction false} DecodeLocal(data: Bytes, i: nat, data': Bytes, j: nat)
    requires Decode(data, i).Accepted? && Copied(data, i, Decode(data, i).end, data', j)
    ensures Decode(data', j) == Accepted(Decode(data, i).value, j + (Decode(data, i).end - i))
    decreases |data| - i, 1
  {
    hide DecodeItems; hide DecodeEntries; hide ReadString; hide ReadInt;
    var e := Decode(data, i).end;
    assert data'[j] == data'[j..j + (e - i)][0] == data[i];
    if data[i] == 'i' {
      IntLocal(data, i, data', j);
    } else if data[i] == 'l' {
      CopiedPart(data, i, e, data', j, i + 1, e);
      ItemsLocal(data, i + 1, data', j + 1);
    } else if data[i] == 'd' {
      CopiedPart(data, i, e, data', j, i + 1, e);
      EntriesLocal(data, i + 1, data', j + 1);
    } else {
      StringLocal(data, i, data', j);
    }
  }

  lemma {:induction false} ItemsLocal(data: Bytes, i: nat, data': Bytes, j: nat)
    requires DecodeItems(data, i).Accepted? && Copied(data, i, DecodeItems(data, i).end, data', j)
    ensures DecodeItems(data', j) == Accepted(DecodeItems(data, i).value, j + (DecodeItems(data, i).end - i))
    decreases |data| - i, 2
  {
    hide Decode; hide DecodeItems; hide DecodeEntries; hide ReadString; hide ReadInt;
    var e := DecodeItems(data, i).end;
    if data[i] == 'e' {
      Closed(data, i);
      Closed(data', j);
    } else {
      ItemSteps(data, i);
      var next := Decode(data, i).end;
      CopiedPart(data, i, e, data', j, i, next);
      CopiedPart(data, i, e, data', j, next, e);
      DecodeLocal(data, i, data', j);
      ItemsLocal(data, next, data', j + (next - i));
      ItemRead(data', j, Decode(data, i).value, j + (next - i), DecodeItems(data, next).value);
    }
  }

  lemma CopiedThree(data: Bytes, i: nat, e: nat, data': Bytes, j: nat, a: nat, b: nat)
    requires Copied(data, i, e, data', j) && i < a <= b <= e
    ensures Copied(data, i, a, data', j) && Copied(data, a, b, data', j + (a - i)) &&
      Copied(data, b, e, data', j + (b - i))
    ensures data'[j] == data[i]
  {
    CopiedPart(data, i, e, data', j, i, a);
    CopiedPart(data, i, e, data', j, a, b);
    CopiedPart(data, i, e, data', j, b, e);
  }

  lemma {:induction false} EntriesLocal(data: Bytes, i: nat, data': Bytes, j: nat)
    requires DecodeEntries(data, i).Accepted? && Copied(data, i, DecodeEntries(data, i).end, data', j)
    ensures DecodeEntries(data', j) == Accepted(DecodeEntries(data, i).value, j + (DecodeEntries(data, i).end - i))
    decreases |data| - i, 2
  {
    hide Decode; hide DecodeItems; hide DecodeEntries; hide ReadString; hide ReadInt;
    var e := DecodeEntries(data, i).end;
    if data[i] == 'e' {
      Closed(data, i);
      Closed(data', j);
    } else {
      EntrySteps(data, i);
      var at := ReadString(data, i).end;
      var next := Decode(data, at).end;
      CopiedThree(data, i, e, data', j, at, next);
      StringLocal(data, i, data', j);
      DecodeLocal(data, at, data', j + (at - i));
      EntriesLocal(data, next, data', j + (next - i));
      EntryRead(data', j, ReadString(data, i).value, j + (at - i), Decode(data, at).value, j + (next - i),
        DecodeEntries(data, next).value);
    }
  }

  // ---- the encoding and its round trip ----------------------------------------------------------

  function EncodeString(b: Bytes): Bytes {
    Itoa(|b|) + ":" + b
  }

  function Encode(v: Value): Bytes {
    match v
    case Int(t) => "i" + t + "e"
    case Str(b) => EncodeString(b)
    case List(vs) => "l" + EncodeItems(vs)
    case Dict(es) => "d" + EncodeEntries(es)
  }

  /** The items and the closing `e`. */
  function EncodeItems(vs: Values): Bytes {
    match vs
    case NoValues => "e"
    case Values(v, rest) => Encode(v) + EncodeItems(rest)
  }

  function EncodeEntries(es: Entries): Bytes {
    match es
    case NoEntries => "e"
    case Entry(k, v, rest) => EncodeString(k) + Encode(v) + EncodeEntries(rest)
  }

  /** Integer texts are non-empty and hold no `e`; byte strings have a length a 64-bit int can hold. */
  predicate Encodable(v: Value) {
    match v
    case Int(t) => t != "" && 'e' !in t
    case Str(b) => |b| <= MAX_INT
    case List(vs) => EncodableItems(vs)
    case Dict(es) => EncodableEntries(es)
  }

  predicate EncodableItems(vs: Values) {
    match vs
    case NoValues => true
    case Values(v, rest) => Encodable(v) && EncodableItems(rest)
  }

  predicate EncodableEntries(es: Entries) {
    match es
    case NoEntries => true
    case Entry(k, v, rest) => |k| <= MAX_INT && Encodable(v) && EncodableEntries(rest)
  }

  /**
   * Whatever is accepted, from any input, is a value that can be encoded: no integer without a text, no text with a
   * closing `e` in it, no length beyond a 64-bit int.
   */
  lemma {:induction false} DecodedIsEncodable(data: Bytes, i: nat)
    requires Decode(data, i).Accepted?
    ensures Encodable(Decode(data, i).value)
    decreases |data| - i, 1
  {
    hide DecodeItems;
    hide DecodeEntries;
    if data[i] == 'l' {
      ItemsAreEncodable(data, i + 1);
    } else if data[i] == 'd' {
      EntriesAreEncodable(data, i + 1);
    }
  }

  lemma {:induction false} ItemsAreEncodable(data: Bytes, i: nat)
    requires DecodeItems(data, i).Accepted?
    ensures EncodableItems(DecodeItems(data, i).value)
    decreases |data| - i, 2
  {
    hide Decode;
    hide DecodeItems;
    hide DecodeEntries;
    if data[i] == 'e' {
      Closed(data, i);
    } else {
      ItemSteps(data, i);
      DecodedIsEncodable(data, i);
      ItemsAreEncodable(data, Decode(data, i).end);
    }
  }

  lemma {:induction false} EntriesAreEncodable(data: Bytes, i: nat)
    requires DecodeEntries(data, i).Accepted?
    ensures EncodableEntries(DecodeEntries(data, i).value)
    decreases |data| - i, 2
  {
    hide Decode;
    hide DecodeItems;
    hide DecodeEntries;
    if data[i] == 'e' {
      Closed(data, i);
    } else {
      EntrySteps(data, i);
      var at := ReadString(data, i).end;
      DecodedIsEncodable(data, at);
      EntriesAreEncodable(data, Decode(data, at).end);
    }
  }

  /** data holds the bytes b at position i. */
  ghost predicate Holds(data: Bytes, i: nat, b: Bytes) {
    i + |b| <= |data| && data[i..i + |b|] == b
  }

  lemma HoldsParts(data: Bytes, i: nat, a: Bytes, b: Bytes)
    requires Holds(data, i, a + b)
    ensures Holds(data, i, a) && Holds(data, i + |a|, b)
  {
    var all := data[i..i + |a + b|];
    assert all[..|a|] == a && all[|a|..] == b;
    assert data[i..i + |a|] == all[..|a|];
    assert data[i + |a|..i + |a| + |b|] == all[|a|..];
  }

  lemma {:induction false} DigitsRun(data: Bytes, i: nat, e: nat)
    requires i <= e < |data| && !IsDigit(data[e]) && forall k :: i <= k < e ==> IsDigit(data[k])
    ensures DigitsEnd(data, i) == e
    decreases e - i
  {
  }

  lemma StringRoundTrip(data: Bytes, i: nat, b: Bytes)
    requires |b| <= MAX_INT && Holds(data, i, EncodeString(b))
    ensures ReadString(data, i) == Accepted(b, i + |EncodeString(b)|)
    ensures data[i] != 'e' && data[i] != 'i' && data[i] != 'l' && data[i] != 'd'
  {
    var n := Itoa(|b|);
    HoldsParts(data, i, n + ":", b);
    HoldsParts(data, i, n, ":");
    var colon := i + |n|;
    assert data[i..colon] == n;
    forall k | i <= k < colon ensures IsDigit(data[k]) {
      assert data[k] == data[i..colon][k - i] == n[k - i];
    }
    assert data[colon] == data[colon..colon + 1][0] == ':';
    DigitsRun(data, i, colon);
  }

  /** Decoding what was encoded, anywhere in any input, gives the value back and consumes exactly its bytes. */
  lemma {:induction false} DecodeEncode(data: Bytes, i: nat, v: Value)
    requires Encodable(v) && Holds(data, i, Encode(v))
    ensures Decode(data, i) == Accepted(v, i + |Encode(v)|)
    decreases v
  {
    assert data[i] == data[i..i + |Encode(v)|][0] == Encode(v)[0];
    match v {
      case Int(t) =>
        HoldsParts(data, i, "i" + t, "e");
        HoldsParts(data, i, "i", t);
        var end := i + 1 + |t|;
        forall k | i + 1 <= k < end ensures data[k] != 'e' {
          assert data[k] == data[i + 1..end][k - i - 1] == t[k - i - 1];
          assert t[k - i - 1] in t;
        }
        assert data[end] == data[end..end + 1][0];
      case Str(b) =>
        StringRoundTrip(data, i, b);
      case List(vs) =>
        HoldsParts(data, i, "l", EncodeItems(vs));
        ItemsRoundTrip(data, i + 1, vs);
      case Dict(es) =>
        HoldsParts(data, i, "d", EncodeEntries(es));
        EntriesRoundTrip(data, i + 1, es);
    }
  }

  lemma ItemsParts(data: Bytes, i: nat, v: Value, rest: Values)
    requires Encodable(v) && Holds(data, i, EncodeItems(Values(v, rest)))
    ensures Holds(data, i, Encode(v)) && Holds(data, i + |Encode(v)|, EncodeItems(rest)) && data[i] != 'e'
    ensures |EncodeItems(Values(v, rest))| == |Encode(v)| + |EncodeItems(rest)|
  {
    HoldsParts(data, i, Encode(v), EncodeItems(rest));
    assert data[i] == data[i..i + |Encode(v)|][0] == Encode(v)[0];
  }

  lemma {:induction false} ItemsRoundTrip(data: Bytes, i: nat, vs: Values)
    requires EncodableItems(vs) && Holds(data, i, EncodeItems(vs))
    ensures DecodeItems(data, i) == Accepted(vs, i + |EncodeItems(vs)|)
    decreases vs
  {
    hide Decode; hide DecodeItems; hide DecodeEntries; hide ReadString; hide ReadInt;
    match vs {
      case NoValues =>
        assert data[i] == data[i..i + 1][0];
        Closed(data, i);
      case Values(v, rest) =>
        ItemsParts(data, i, v, rest);
        DecodeEncode(data, i, v);
        ItemsRoundTrip(data, i + |Encode(v)|, rest);
        ItemRead(data, i, v, i + |Encode(v)|, rest);
    }
  }

  lemma EntriesParts(data: Bytes, i: nat, k: Bytes, v: Value, rest: Entries)
    requires Holds(data, i, EncodeEntries(Entry(k, v, rest)))
    ensures Holds(data, i, EncodeString(k)) && Holds(data, i + |EncodeString(k)|, Encode(v))
    ensures Holds(data, i + |EncodeString(k)| + |Encode(v)|, EncodeEntries(rest))
    ensures |EncodeEntries(Entry(k, v, rest))| == |EncodeString(k)| + |Encode(v)| + |EncodeEntries(rest)|
  {
    HoldsParts(data, i, EncodeString(k) + Encode(v), EncodeEntries(rest));
    HoldsParts(data, i, EncodeString(k), Encode(v));
  }

  lemma {:induction false} EntriesRoundTrip(data: Bytes, i: nat, es: Entries)
    requires EncodableEntries(es) && Holds(data, i, EncodeEntries(es))
    ensures DecodeEntries(data, i) == Accepted(es, i + |EncodeEntries(es)|)
    decreases es
  {
    hide Decode; hide DecodeItems; hide DecodeEntries; hide ReadString; hide ReadInt;
    match es {
      case NoEntries =>
        assert data[i] == data[i..i + 1][0];
        Closed(data, i);
      case Entry(k, v, rest) =>
        EntriesParts(data, i, k, v, rest);
        var at := i + |EncodeString(k)|;
        var next := at + |Encode(v)|;
        StringRoundTrip(data, i, k);
        DecodeEncode(data, at, v);
        EntriesRoundTrip(data, next, rest);
        EntryRead(data, i, k, at, v, next, rest);
    }
  }
}
