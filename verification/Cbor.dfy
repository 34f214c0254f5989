/** The CBOR reader of the Face ID module: what it returns on every buffer, and that within the buffer it accepts
    exactly the encodings of section 3 of RFC 8949 with heads of 0, 1, 2 or 4 extra bytes.  Text is kept as its bytes. */
module Cbor {
  import opened Types

  type Byte = b: int | 0 <= b < 256 witness 0

  /** JavaScript values the reader makes; the entries of a map are in insertion order. */
  datatype Value =
    | Num(n: int)
    | NaN
    | Undefined
    | Bytes(bytes: seq<Byte>)
    | Text(text: seq<Byte>)
    | Arr(items: seq<Value>)
    | Map(entries: seq<(Value, Value)>)
    | Bool(b: bool)
    | Null

  datatype Error = UnsupportedData | UnsupportedLength | OutOfRange

  /** The offset; adding undefined to it leaves NaN, which points nowhere. */
  datatype Pos = At(offset: nat) | Lost

  datatype Result<T> = Ok(value: T, pos: Pos) | Fail(error: Error)

  function ByteAt(buffer: seq<Byte>, pos: Pos): Option<Byte> {
    if pos.At? && pos.offset < |buffer| then Some(buffer[pos.offset]) else None
  }

  function Skip(pos: Pos, n: nat): Pos { if pos.At? then At(pos.offset + n) else Lost }

  function Remaining(buffer: seq<Byte>, pos: Pos): (n: nat) {
    if pos.At? && pos.offset < |buffer| then |buffer| - pos.offset else 0
  }

  function U16(a: Byte, b: Byte): (n: nat)
    ensures n < 0x1_0000
  {
    256 * a + b
  }

  /** readLength, where None is undefined. */
  function ReadLength(buffer: seq<Byte>, pos: Pos, additional: nat): (r: Result<Option<nat>>)
    ensures r.Ok? ==> Remaining(buffer, r.pos) <= Remaining(buffer, pos) && (pos.Lost? <==> r.pos.Lost?)
    ensures r.Ok? && pos.At? ==> r.pos.offset >= pos.offset && (r.value.None? ==> r.pos.offset > |buffer|)
  {
    if additional < 24 then Ok(Some(additional), pos)
    else if additional == 24 then
      var byte := ByteAt(buffer, pos);
      Ok(if byte.Some? then Some(byte.value) else None, Skip(pos, 1))
    else if additional == 25 then
      if pos.At? && pos.offset + 2 <= |buffer| then
        Ok(Some(U16(buffer[pos.offset], buffer[pos.offset + 1])), Skip(pos, 2))
      else Fail(OutOfRange)
    else if additional == 26 then
      if pos.At? && pos.offset + 4 <= |buffer| then
        Ok(Some(0x1_0000 * U16(buffer[pos.offset], buffer[pos.offset + 1]) + U16(buffer[pos.offset + 2], buffer[pos.offset + 3])),
           Skip(pos, 4))
      else Fail(OutOfRange)
    else Fail(UnsupportedLength)
  }

  function Min(a: nat, b: nat): nat { if a < b then a else b }

  /** buffer.subarray(from, from + length), which stops at the end of the buffer. */
  function Sub(buffer: seq<Byte>, start: nat, length: nat): seq<Byte> {
    buffer[Min(start, |buffer|)..Min(start + length, |buffer|)]
  }

  /** readBytes; an undefined length reads nothing and loses the offset. */
  function ReadBytes(buffer: seq<Byte>, pos: Pos, length: Option<nat>): (seq<Byte>, Pos) {
    if length.None? then ([], Lost)
    else if pos.Lost? then ([], Lost)
    else (Sub(buffer, pos.offset, length.value), Skip(pos, length.value))
  }

  /** Map.prototype.set compares primitives by value; buffers, arrays and maps are never equal to an earlier key. */
  predicate IsPrimitive(v: Value) { !v.Bytes? && !v.Arr? && !v.Map? }

  function IndexOf(entries: seq<(Value, Value)>, key: Value): (i: nat)
    ensures i <= |entries| && (i < |entries| ==> entries[i].0 == key)
    ensures forall j :: 0 <= j < i ==> entries[j].0 != key
  {
    if entries == [] || entries[0].0 == key then 0 else 1 + IndexOf(entries[1..], key)
  }

  function Set(entries: seq<(Value, Value)>, key: Value, value: Value): seq<(Value, Value)> {
    var i := IndexOf(entries, key);
    if IsPrimitive(key) && i < |entries| then entries[i := (key, value)] else entries + [(key, value)]
  }

  /** What setting an entry does: under a buffer, an array or a map it always adds one, under any other key it replaces the
      entry that is there. */
  lemma SetExactly(entries: seq<(Value, Value)>, key: Value, value: Value)
    ensures
      var after := Set(entries, key, value);
      if key.Bytes? || key.Arr? || key.Map? || forall i :: 0 <= i < |entries| ==> entries[i].0 != key
      then after == entries + [(key, value)]
      else |after| == |entries| && exists i :: 0 <= i < |entries| && entries[i].0 == key && after == entries[i := (key, value)]
  {
    var i := IndexOf(entries, key);
    if i < |entries| && IsPrimitive(key) {
      assert entries[i].0 == key && Set(entries, key, value) == entries[i := (key, value)];
    }
  }

  /** Map.prototype.get of a primitive key, where None is undefined. */
  function Get(entries: seq<(Value, Value)>, key: Value): Option<Value>
    requires IsPrimitive(key)
  {
    var i := IndexOf(entries, key);
    if i < |entries| then Some(entries[i].1) else None
  }

  // ---- the reader ---------------------------------------------------------------------------

  /** read(): past the end the initial byte is undefined, which counts as major type 0 with value 0. */
  function Parse(buffer: seq<Byte>, pos: Pos): (r: Result<Value>)
    ensures r.Ok? ==> Remaining(buffer, r.pos) <= Remaining(buffer, pos) && (pos.Lost? ==> r.pos.Lost?)
    ensures r.Ok? && pos.At? && r.pos.At? ==> r.pos.offset > pos.offset
    decreases Remaining(buffer, pos), 0, 0
  {
    var initial := ByteAt(buffer, pos);
    if initial.None? then Ok(Num(0), Skip(pos, 1))
    else
      var major, additional := initial.value / 32, initial.value % 32;
      var length := ReadLength(buffer, Skip(pos, 1), additional);
      if length.Fail? then Fail(length.error)
      else if major == 0 then Ok(if length.value.Some? then Num(length.value.value) else Undefined, length.pos)
      else if major == 1 then Ok(if length.value.Some? then Num(-1 - length.value.value) else NaN, length.pos)
      else if major == 2 then
        var (bytes, p) := ReadBytes(buffer, length.pos, length.value);
        Ok(Bytes(bytes), p)
      else if major == 3 then
        var (bytes, p) := ReadBytes(buffer, length.pos, length.value);
        Ok(Text(bytes), p)
      else if major == 4 then
        var items := ParseItems(buffer, length.pos, Count(length.value), []);
        if items.Ok? then Ok(Arr(items.value), items.pos) else Fail(items.error)
      else if major == 5 then
        var entries := ParseEntries(buffer, length.pos, Count(length.value), []);
        if entries.Ok? then Ok(Map(entries.value), entries.pos) else Fail(entries.error)
      else if major == 6 then Parse(buffer, length.pos)
      else if additional == 20 then Ok(Bool(false), length.pos)
      else if additional == 21 then Ok(Bool(true), length.pos)
      else if additional == 22 then Ok(Null, length.pos)
      else Fail(UnsupportedData)
  }

  /** How often `i < length` holds for i from 0: never when length is undefined. */
  function Count(length: Option<nat>): nat { if length.Some? then length.value else 0 }

  function ParseItems(buffer: seq<Byte>, pos: Pos, n: nat, read: seq<Value>): (r: Result<seq<Value>>)
    ensures r.Ok? ==> Remaining(buffer, r.pos) <= Remaining(buffer, pos) && (pos.Lost? ==> r.pos.Lost?)
    ensures r.Ok? && pos.At? && r.pos.At? ==> r.pos.offset >= pos.offset
    decreases Remaining(buffer, pos), 1, n
  {
    if n == 0 then Ok(read, pos)
    else
      var item := Parse(buffer, pos);
      if item.Fail? then Fail(item.error) else ParseItems(buffer, item.pos, n - 1, read + [item.value])
  }

  function ParseEntries(buffer: seq<Byte>, pos: Pos, n: nat, read: seq<(Value, Value)>): (r: Result<seq<(Value, Value)>>)
    ensures r.Ok? ==> Remaining(buffer, r.pos) <= Remaining(buffer, pos) && (pos.Lost? ==> r.pos.Lost?)
    ensures r.Ok? && pos.At? && r.pos.At? ==> r.pos.offset >= pos.offset
    decreases Remaining(buffer, pos), 1, n
  {
    if n == 0 then Ok(read, pos)
    else
      var key := Parse(buffer, pos);
      if key.Fail? then Fail(key.error)
      else
        var value := Parse(buffer, key.pos);
        if value.Fail? then Fail(value.error)
        else ParseEntries(buffer, value.pos, n - 1, Set(read, key.value, value.value))
  }

  datatype Outcome<T> = Read(value: T) | Thrown(error: Error)

  predicate Agrees<T(==)>(outcome: Outcome<T>, offset: Pos, r: Result<T>) {
    match r
    case Ok(value, pos) => outcome == Read(value) && offset == pos
    case Fail(error) => outcome == Thrown(error)
  }

  /** class CborReader: a cursor that moves over the buffer. */
  class CborReader {
    const buffer: seq<Byte>
    var offset: Pos

    constructor (buffer: seq<Byte>)
      ensures this.buffer == buffer && offset == At(0)
    {
      this.buffer := buffer;
      offset := At(0);
    }

    method ReadInitial() returns (initial: Option<Byte>)
      modifies this
      ensures initial == ByteAt(buffer, old(offset)) && offset == Skip(old(offset), 1)
    {
      initial := ByteAt(buffer, offset);
      offset := Skip(offset, 1);
    }

    method TakeLength(additional: nat) returns (length: Outcome<Option<nat>>)
      modifies this
      ensures Agrees(length, offset, ReadLength(buffer, old(offset), additional))
    {
      hide U16;
      if additional < 24 { return Read(Some(additional)); }
      if additional == 24 {
        var byte := ByteAt(buffer, offset);
        offset := Skip(offset, 1);
        return Read(if byte.Some? then Some(byte.value) else None);
      }
      if additional == 25 {
        if offset.Lost? || offset.offset + 2 > |buffer| { return Thrown(OutOfRange); }
        var value := U16(buffer[offset.offset], buffer[offset.offset + 1]);
        offset := Skip(offset, 2);
        return Read(Some(value));
      }
      if additional == 26 {
        if offset.Lost? || offset.offset + 4 > |buffer| { return Thrown(OutOfRange); }
        var high := U16(buffer[offset.offset], buffer[offset.offset + 1]);
        var low := U16(buffer[offset.offset + 2], buffer[offset.offset + 3]);
        offset := Skip(offset, 4);
        return Read(Some(0x1_0000 * high + low));
      }
      return Thrown(UnsupportedLength);
    }

    method TakeBytes(length: Option<nat>) returns (bytes: seq<Byte>)
      modifies this
      ensures (bytes, offset) == ReadBytes(buffer, old(offset), length)
    {
      if length.None? {
        bytes := [];
        offset := Lost;
      } else {
        bytes := if offset.At? then Sub(buffer, offset.offset, length.value) else [];
        offset := Skip(offset, length.value);
      }
    }

    method TakeItems(n: nat) returns (r: Outcome<seq<Value>>)
      modifies this
      ensures Agrees(r, offset, ParseItems(buffer, old(offset), n, []))
      decreases Remaining(buffer, offset), 1
    {
      hide Parse;
      var arr: seq<Value> := [];
      var i := 0;
      while i < n
        invariant i <= n
        invariant ParseItems(buffer, offset, n - i, arr) == ParseItems(buffer, old(offset), n, [])
        invariant Remaining(buffer, offset) <= Remaining(buffer, old(offset))
      {
        var item := Take();
        if item.Thrown? { return Thrown(item.error); }
        arr := arr + [item.value];
        i := i + 1;
      }
      return Read(arr);
    }

    method TakeEntries(n: nat) returns (r: Outcome<seq<(Value, Value)>>)
      modifies this
      ensures Agrees(r, offset, ParseEntries(buffer, old(offset), n, []))
      decreases Remaining(buffer, offset), 1
    {
      hide Set, Parse;
      var entries: seq<(Value, Value)> := [];
      var i := 0;
      while i < n
        invariant i <= n
        invariant ParseEntries(buffer, offset, n - i, entries) == ParseEntries(buffer, old(offset), n, [])
        invariant Remaining(buffer, offset) <= Remaining(buffer, old(offset))
      {
        var key := Take();
        if key.Thrown? { return Thrown(key.error); }
        var value := Take();
        if value.Thrown? { return Thrown(value.error); }
        entries := Set(entries, key.value, value.value);
        i := i + 1;
      }
      return Read(entries);
    }

    /** read() */
    method Take() returns (r: Outcome<Value>)
      modifies this
      ensures Agrees(r, offset, Parse(buffer, old(offset)))
      decreases Remaining(buffer, offset), 0
    {
      var initial := ReadInitial();
      if initial.None? { return Read(Num(0)); }
      var major, additional := initial.value / 32, initial.value % 32;
      var length := TakeLength(additional);
      if length.Thrown? { return Thrown(length.error); }
      if major == 0 { return Read(if length.value.Some? then Num(length.value.value) else Undefined); }
      if major == 1 { return Read(if length.value.Some? then Num(-1 - length.value.value) else NaN); }
      if major == 2 {
        var bytes := TakeBytes(length.value);
        return Read(Bytes(bytes));
      }
      if major == 3 {
        var bytes := TakeBytes(length.value);
        return Read(Text(bytes));
      }
      if major == 4 {
        var items := TakeItems(Count(length.value));
        return if items.Read? then Read(Arr(items.value)) else Thrown(items.error);
      }
      if major == 5 {
        var entries := TakeEntries(Count(length.value));
        return if entries.Read? then Read(Map(entries.value)) else Thrown(entries.error);
      }
      if major == 6 {
        r := Take();
        return;
      }
      if additional == 20 { return Read(Bool(false)); }
      if additional == 21 { return Read(Bool(true)); }
      if additional == 22 { return Read(Null); }
      return Thrown(UnsupportedData);
    }
  }

  // ---- encodings ----------------------------------------------------------------------------

  /** The number of bytes after the initial byte that hold the argument. */
  datatype Width = W0 | W1 | W2 | W4

  datatype Item =
    | UInt(w: Width, n: nat)
    | NInt(w: Width, n: nat)
    | ByteString(w: Width, s: seq<Byte>)
    | TextString(w: Width, s: seq<Byte>)
    | Array(w: Width, items: seq<Item>)
    | MapItem(w: Width, pairs: seq<Pair>)
    | Tag(w: Width, n: nat, item: Item)
    | FalseItem
    | TrueItem
    | NullItem

  datatype Pair = Pair(key: Item, value: Item)

  predicate Fits(w: Width, n: nat) {
    match w
    case W0 => n < 24
    case W1 => n < 0x100
    case W2 => n < 0x1_0000
    case W4 => n < 0x1_0000_0000
  }

  function Be16(n: nat): (s: seq<Byte>)
    requires n < 0x1_0000
    ensures |s| == 2 && U16(s[0], s[1]) == n
  {
    [n / 256, n % 256]
  }

  function Head(major: nat, w: Width, n: nat): seq<Byte>
    requires major < 8 && Fits(w, n)
  {
    match w
    case W0 => [32 * major + n]
    case W1 => [32 * major + 24, n]
    case W2 => [32 * major + 25] + Be16(n)
    case W4 => [32 * major + 26] + Be16(n / 0x1_0000) + Be16(n % 0x1_0000)
  }

  predicate WellFormed(e: Item) {
    match e
    case UInt(w, n) => Fits(w, n)
    case NInt(w, n) => Fits(w, n)
    case ByteString(w, s) => Fits(w, |s|)
    case TextString(w, s) => Fits(w, |s|)
    case Array(w, items) => Fits(w, |items|) && forall i :: 0 <= i < |items| ==> WellFormed(items[i])
    case MapItem(w, pairs) =>
      Fits(w, |pairs|) && WellFormedPairs(pairs)
    case Tag(w, n, item) => Fits(w, n) && WellFormed(item)
    case _ => true
  }

  predicate WellFormedPair(pair: Pair) { WellFormed(pair.key) && WellFormed(pair.value) }

  predicate WellFormedPairs(pairs: seq<Pair>) { forall i :: 0 <= i < |pairs| ==> WellFormedPair(pairs[i]) }

  function Encode(e: Item): (s: seq<Byte>)
    requires WellFormed(e)
    ensures |s| >= 1
  {
    match e
    case UInt(w, n) => Head(0, w, n)
    case NInt(w, n) => Head(1, w, n)
    case ByteString(w, s) => Head(2, w, |s|) + s
    case TextString(w, s) => Head(3, w, |s|) + s
    case Array(w, items) => Head(4, w, |items|) + EncodeItems(items)
    case MapItem(w, pairs) => Head(5, w, |pairs|) + EncodePairs(pairs)
    case Tag(w, n, item) => Head(6, w, n) + Encode(item)
    case FalseItem => [0xf4]
    case TrueItem => [0xf5]
    case NullItem => [0xf6]
  }

  function EncodeItems(items: seq<Item>): seq<Byte>
    requires forall i :: 0 <= i < |items| ==> WellFormed(items[i])
  {
    if items == [] then [] else Encode(items[0]) + EncodeItems(items[1..])
  }

  function EncodePair(pair: Pair): seq<Byte>
    requires WellFormedPair(pair)
  {
    Encode(pair.key) + Encode(pair.value)
  }

  function EncodePairs(pairs: seq<Pair>): seq<Byte>
    requires WellFormedPairs(pairs)
  {
    if pairs == [] then [] else EncodePair(pairs[0]) + EncodePairs(pairs[1..])
  }

  /** The value an item stands for: tags are dropped, a repeated primitive key overwrites. */
  function Meaning(e: Item): Value {
    match e
    case UInt(_, n) => Num(n)
    case NInt(_, n) => Num(-1 - n)
    case ByteString(_, s) => Bytes(s)
    case TextString(_, s) => Text(s)
    case Array(_, items) => Arr(MeaningItems(items, []))
    case MapItem(_, pairs) => Map(MeaningPairs(pairs, []))
    case Tag(_, _, item) => Meaning(item)
    case FalseItem => Bool(false)
    case TrueItem => Bool(true)
    case NullItem => Null
  }

  function MeaningItems(items: seq<Item>, read: seq<Value>): seq<Value> {
    if items == [] then read else MeaningItems(items[1..], read + [Meaning(items[0])])
  }

  function MeaningPair(pair: Pair): (Value, Value) { (Meaning(pair.key), Meaning(pair.value)) }

  function MeaningPairs(pairs: seq<Pair>, read: seq<(Value, Value)>): seq<(Value, Value)> {
    if pairs == [] then read
    else
      var (key, value) := MeaningPair(pairs[0]);
      MeaningPairs(pairs[1..], Set(read, key, value))
  }

  // ---- reading back -------------------------------------------------------------------------

  predicate HasAt(buffer: seq<Byte>, o: nat, s: seq<Byte>) {
    o + |s| <= |buffer| && buffer[o..o + |s|] == s
  }

  lemma HasParts(buffer: seq<Byte>, o: nat, a: seq<Byte>, b: seq<Byte>)
    requires HasAt(buffer, o, a + b)
    ensures HasAt(buffer, o, a) && HasAt(buffer, o + |a|, b)
  {
    assert buffer[o..o + |a|] == (a + b)[..|a|] == a;
    assert buffer[o + |a|..o + |a| + |b|] == (a + b)[|a|..] == b;
  }

  /** Every form of a head is read back as its major type and argument. */
  lemma HeadReadsBack(buffer: seq<Byte>, o: nat, major: nat, w: Width, n: nat)
    requires major < 8 && Fits(w, n) && HasAt(buffer, o, Head(major, w, n))
    ensures o < |buffer| && buffer[o] / 32 == major
    ensures ReadLength(buffer, At(o + 1), buffer[o] % 32) == Ok(Some(n), At(o + |Head(major, w, n)|))
  {
    hide U16, Be16;
    if w.W2? {
      HasParts(buffer, o, [32 * major + 25], Be16(n));
      WordAt(buffer, o + 1, n);
    } else if w.W4? {
      HasParts(buffer, o, [32 * major + 26] + Be16(n / 0x1_0000), Be16(n % 0x1_0000));
      HasParts(buffer, o, [32 * major + 26], Be16(n / 0x1_0000));
      WordAt(buffer, o + 1, n / 0x1_0000);
      WordAt(buffer, o + 3, n % 0x1_0000);
    }
    assert buffer[o] == buffer[o..o + |Head(major, w, n)|][0] == Head(major, w, n)[0];
    assert w.W1? ==> buffer[o + 1] == buffer[o..o + |Head(major, w, n)|][1];
  }

  lemma WordAt(buffer: seq<Byte>, o: nat, n: nat)
    requires n < 0x1_0000 && HasAt(buffer, o, Be16(n))
    ensures o + 1 < |buffer| && U16(buffer[o], buffer[o + 1]) == n
  {
    assert buffer[o] == Be16(n)[0] && buffer[o + 1] == Be16(n)[1];
  }

  /** Round trip: whatever comes before and after, reading an encoding gives its value and stops exactly at its end. */
  lemma {:induction false} ReadBack(buffer: seq<Byte>, o: nat, e: Item)
    requires WellFormed(e) && HasAt(buffer, o, Encode(e))
    ensures Parse(buffer, At(o)) == Ok(Meaning(e), At(o + |Encode(e)|))
    decreases e
  {
    hide ReadLength, HasAt, ReadBytes, Head, Fits, ParseItems, ParseEntries, EncodeItems, EncodePairs;
    match e {
      case UInt(w, n) => HeadReadsBack(buffer, o, 0, w, n);
      case NInt(w, n) => HeadReadsBack(buffer, o, 1, w, n);
      case ByteString(w, s) => StringReadsBack(buffer, o, e);
      case TextString(w, s) => StringReadsBack(buffer, o, e);
      case Array(w, items) =>
        HasParts(buffer, o, Head(4, w, |items|), EncodeItems(items));
        HeadReadsBack(buffer, o, 4, w, |items|);
        ItemsReadBack(buffer, o + |Head(4, w, |items|)|, items, []);
      case MapItem(w, pairs) =>
        HasParts(buffer, o, Head(5, w, |pairs|), EncodePairs(pairs));
        HeadReadsBack(buffer, o, 5, w, |pairs|);
        PairsReadBack(buffer, o + |Head(5, w, |pairs|)|, pairs, []);
      case Tag(w, n, item) =>
        HasParts(buffer, o, Head(6, w, n), Encode(item));
        HeadReadsBack(buffer, o, 6, w, n);
        ReadBack(buffer, o + |Head(6, w, n)|, item);
      case _ => SimpleReadsBack(buffer, o, e);
    }
  }

  lemma StringReadsBack(buffer: seq<Byte>, o: nat, e: Item)
    requires (e.ByteString? || e.TextString?) && WellFormed(e) && HasAt(buffer, o, Encode(e))
    ensures Parse(buffer, At(o)) == Ok(Meaning(e), At(o + |Encode(e)|))
  {
    hide *;
    StringMeans(e);
    var head := Head(if e.TextString? then 3 else 2, e.w, |e.s|);
    HasParts(buffer, o, head, e.s);
    StringParsed(buffer, o, e.TextString?, e.w, |e.s|);
    SubAt(buffer, o + |head|, e.s);
  }

  lemma StringMeans(e: Item)
    requires (e.ByteString? || e.TextString?) && WellFormed(e)
    ensures Fits(e.w, |e.s|) && Encode(e) == Head(if e.TextString? then 3 else 2, e.w, |e.s|) + e.s
    ensures Meaning(e) == if e.TextString? then Text(e.s) else Bytes(e.s)
  {
    hide Head, Fits;
  }

  lemma SubAt(buffer: seq<Byte>, o: nat, s: seq<Byte>)
    requires HasAt(buffer, o, s)
    ensures Sub(buffer, o, |s|) == s
  {
  }

  lemma SimpleReadsBack(buffer: seq<Byte>, o: nat, e: Item)
    requires (e.FalseItem? || e.TrueItem? || e.NullItem?) && HasAt(buffer, o, Encode(e))
    ensures Parse(buffer, At(o)) == Ok(Meaning(e), At(o + |Encode(e)|))
  {
    assert buffer[o] == Encode(e)[0];
  }

  lemma {:induction false} ItemsReadBack(buffer: seq<Byte>, o: nat, items: seq<Item>, read: seq<Value>)
    requires (forall i :: 0 <= i < |items| ==> WellFormed(items[i])) && HasAt(buffer, o, EncodeItems(items))
    ensures ParseItems(buffer, At(o), |items|, read) == Ok(MeaningItems(items, read), At(o + |EncodeItems(items)|))
    decreases items
  {
    hide HasAt, Parse, Encode, Meaning;
    if items != [] {
      HasParts(buffer, o, Encode(items[0]), EncodeItems(items[1..]));
      ReadBack(buffer, o, items[0]);
      ItemsReadBack(buffer, o + |Encode(items[0])|, items[1..], read + [Meaning(items[0])]);
    }
  }

  lemma {:induction false} PairsReadBack(buffer: seq<Byte>, o: nat, pairs: seq<Pair>, read: seq<(Value, Value)>)
    requires WellFormedPairs(pairs)
    requires HasAt(buffer, o, EncodePairs(pairs))
    ensures ParseEntries(buffer, At(o), |pairs|, read) == Ok(MeaningPairs(pairs, read), At(o + |EncodePairs(pairs)|))
    decreases pairs
  {
    hide HasAt, Parse, Encode, Meaning, Set, EncodePair;
    if pairs != [] {
      var pair := pairs[0];
      HasParts(buffer, o, EncodePair(pair), EncodePairs(pairs[1..]));
      PairReadsBack(buffer, o, pair);
      PairsReadBack(buffer, o + |EncodePair(pair)|, pairs[1..], Set(read, Meaning(pair.key), Meaning(pair.value)));
    }
  }

  lemma {:induction false} PairReadsBack(buffer: seq<Byte>, o: nat, pair: Pair)
    requires WellFormedPair(pair) && HasAt(buffer, o, EncodePair(pair))
    ensures
      var mid := At(o + |Encode(pair.key)|);
      && Parse(buffer, At(o)) == Ok(Meaning(pair.key), mid)
      && Parse(buffer, mid) == Ok(Meaning(pair.value), At(o + |EncodePair(pair)|))
    decreases pair
  {
    hide Parse, HasAt, Encode, Meaning;
    HasParts(buffer, o, Encode(pair.key), Encode(pair.value));
    ReadBack(buffer, o, pair.key);
    ReadBack(buffer, o + |Encode(pair.key)|, pair.value);
  }

  /** The same, as a statement about reading from the start of a buffer with trailing bytes. */
  lemma RoundTrip(e: Item, rest: seq<Byte>)
    requires WellFormed(e)
    ensures Parse(Encode(e) + rest, At(0)) == Ok(Meaning(e), At(|Encode(e)|))
  {
    assert (Encode(e) + rest)[0..0 + |Encode(e)|] == Encode(e);
    ReadBack(Encode(e) + rest, 0, e);
  }

  // ---- only encodings -----------------------------------------------------------------------

  function Within(r: Result<Value>, buffer: seq<Byte>): bool {
    r.Ok? && r.pos.At? && r.pos.offset <= |buffer|
  }

  lemma LengthIsHead(buffer: seq<Byte>, o: nat) returns (w: Width)
    requires o < |buffer|
    requires var r := ReadLength(buffer, At(o + 1), buffer[o] % 32); r.Ok? && r.pos.offset <= |buffer|
    ensures
      var r := ReadLength(buffer, At(o + 1), buffer[o] % 32);
      && r.value.Some? && Fits(w, r.value.value) && HasAt(buffer, o, Head(buffer[o] / 32, w, r.value.value))
      && r.pos == At(o + |Head(buffer[o] / 32, w, r.value.value)|)
  {
    var additional := buffer[o] % 32;
    var n := ReadLength(buffer, At(o + 1), additional).value;
    w := if additional < 24 then W0 else if additional == 24 then W1 else if additional == 25 then W2 else W4;
    HeadIs(buffer, o, w, n.value);
  }

  lemma HeadIs(buffer: seq<Byte>, o: nat, w: Width, n: nat)
    requires o < |buffer| && Fits(w, n)
    requires ReadLength(buffer, At(o + 1), buffer[o] % 32).Ok? && ReadLength(buffer, At(o + 1), buffer[o] % 32).value == Some(n)
    requires ReadLength(buffer, At(o + 1), buffer[o] % 32).pos.offset <= |buffer|
    requires w == if buffer[o] % 32 < 24 then W0 else if buffer[o] % 32 == 24 then W1 else if buffer[o] % 32 == 25 then W2 else W4
    ensures HasAt(buffer, o, Head(buffer[o] / 32, w, n))
    ensures ReadLength(buffer, At(o + 1), buffer[o] % 32).pos == At(o + |Head(buffer[o] / 32, w, n)|)
  {
    hide U16;
    var head := Head(buffer[o] / 32, w, n);
    if w.W2? {
      Be16Is(buffer[o + 1], buffer[o + 2]);
    } else if w.W4? {
      Be16Is(buffer[o + 1], buffer[o + 2]);
      Be16Is(buffer[o + 3], buffer[o + 4]);
      Halves(U16(buffer[o + 1], buffer[o + 2]), U16(buffer[o + 3], buffer[o + 4]));
    }
    hide Be16, Fits;
    forall i | 0 <= i < |head| ensures buffer[o + i] == head[i] {}
  }

  lemma Be16Is(a: Byte, b: Byte)
    ensures Be16(U16(a, b)) == [a, b]
  {
  }

  lemma Halves(high: nat, low: nat)
    requires low < 0x1_0000
    ensures (0x1_0000 * high + low) / 0x1_0000 == high && (0x1_0000 * high + low) % 0x1_0000 == low
  {
  }

  lemma JoinParts(buffer: seq<Byte>, o: nat, a: seq<Byte>, b: seq<Byte>)
    requires HasAt(buffer, o, a) && HasAt(buffer, o + |a|, b)
    ensures HasAt(buffer, o, a + b)
  {
    assert buffer[o..o + |a + b|] == buffer[o..o + |a|] + buffer[o + |a|..o + |a| + |b|];
  }

  /** What the reader takes as the argument and the bytes after it, for a string within the buffer. */
  lemma StringIs(buffer: seq<Byte>, o: nat, p: nat, n: nat)
    requires o <= p && ReadBytes(buffer, At(p), Some(n)).1 == At(p + n) && p + n <= |buffer|
    ensures ReadBytes(buffer, At(p), Some(n)).0 == buffer[p..p + n] && HasAt(buffer, p, buffer[p..p + n])
  {
  }

  /** Whatever the reader returns without leaving the buffer, it read from an encoding of that value. */
  lemma {:induction false} OnlyEncodings(buffer: seq<Byte>, o: nat) returns (e: Item)
    requires Within(Parse(buffer, At(o)), buffer)
    ensures WellFormed(e) && HasAt(buffer, o, Encode(e))
    ensures Parse(buffer, At(o)) == Ok(Meaning(e), At(o + |Encode(e)|))
    decreases Remaining(buffer, At(o)), 0, 1
  {
    LengthWithin(buffer, o);
    var w := LengthIsHead(buffer, o);
    var length := ReadLength(buffer, At(o + 1), buffer[o] % 32);
    var n, p := length.value.value, length.pos.offset;
    hide ReadLength, HasAt, Encode, Meaning, WellFormed;
    if buffer[o] / 32 <= 1 {
      e := NumberItem(buffer, o, w, n);
    } else if buffer[o] / 32 <= 3 {
      e := StringItem(buffer, o, w, n, p);
    } else if buffer[o] / 32 <= 6 {
      e := ContainerItem(buffer, o, w, n, p);
    } else {
      e := SimpleItem(buffer, o);
    }
    ReadBack(buffer, o, e);
  }

  lemma NumberItem(buffer: seq<Byte>, o: nat, w: Width, n: nat) returns (e: Item)
    requires o < |buffer| && buffer[o] / 32 <= 1 && Fits(w, n) && HasAt(buffer, o, Head(buffer[o] / 32, w, n))
    ensures WellFormed(e) && HasAt(buffer, o, Encode(e))
  {
    hide HasAt, Head, Fits;
    e := if buffer[o] / 32 == 0 then UInt(w, n) else NInt(w, n);
  }

  lemma {:induction false} ContainerItem(buffer: seq<Byte>, o: nat, w: Width, n: nat, p: nat) returns (e: Item)
    requires o < |buffer| && 4 <= buffer[o] / 32 <= 6 && Within(Parse(buffer, At(o)), buffer)
    requires ReadLength(buffer, At(o + 1), buffer[o] % 32) == Ok(Some(n), At(p)) && p <= |buffer|
    requires Fits(w, n) && HasAt(buffer, o, Head(buffer[o] / 32, w, n)) && o < p == o + |Head(buffer[o] / 32, w, n)|
    ensures WellFormed(e) && HasAt(buffer, o, Encode(e))
    decreases Remaining(buffer, At(o)), 0, 0
  {
    hide ReadLength, HasAt, Head, Fits, ParseItems, ParseEntries, EncodeItems, EncodePairs;
    var head := Head(buffer[o] / 32, w, n);
    if buffer[o] / 32 == 4 {
      var items := OnlyItems(buffer, p, n, []);
      JoinParts(buffer, o, head, EncodeItems(items));
      e := Array(w, items);
    } else if buffer[o] / 32 == 5 {
      var pairs := OnlyPairs(buffer, p, n, []);
      JoinParts(buffer, o, head, EncodePairs(pairs));
      e := MapItem(w, pairs);
    } else {
      var item := OnlyEncodings(buffer, p);
      JoinParts(buffer, o, head, Encode(item));
      e := Tag(w, n, item);
    }
  }

  lemma LengthWithin(buffer: seq<Byte>, o: nat)
    requires Within(Parse(buffer, At(o)), buffer)
    ensures o < |buffer|
    ensures var length := ReadLength(buffer, At(o + 1), buffer[o] % 32); length.Ok? && length.pos.At? && length.pos.offset <= |buffer|
  {
  }

  lemma SimpleItem(buffer: seq<Byte>, o: nat) returns (e: Item)
    requires o < |buffer| && Parse(buffer, At(o)).Ok? && buffer[o] / 32 == 7
    ensures WellFormed(e) && HasAt(buffer, o, Encode(e))
  {
    e := if buffer[o] % 32 == 20 then FalseItem else if buffer[o] % 32 == 21 then TrueItem else NullItem;
  }

  lemma StringItem(buffer: seq<Byte>, o: nat, w: Width, n: nat, p: nat) returns (e: Item)
    requires o < |buffer| && 2 <= buffer[o] / 32 <= 3 && Within(Parse(buffer, At(o)), buffer)
    requires ReadLength(buffer, At(o + 1), buffer[o] % 32) == Ok(Some(n), At(p))
    requires Fits(w, n) && HasAt(buffer, o, Head(buffer[o] / 32, w, n)) && p == o + |Head(buffer[o] / 32, w, n)|
    ensures WellFormed(e) && HasAt(buffer, o, Encode(e))
  {
    hide ReadLength;
    StringIs(buffer, o, p, n);
    var s := buffer[p..p + n];
    JoinParts(buffer, o, Head(buffer[o] / 32, w, n), s);
    e := if buffer[o] / 32 == 2 then ByteString(w, s) else TextString(w, s);
  }

  predicate ItemsWithin(buffer: seq<Byte>, p: nat, n: nat, read: seq<Value>) {
    var r := ParseItems(buffer, At(p), n, read);
    r.Ok? && r.pos.At? && r.pos.offset <= |buffer| && p <= |buffer|
  }

  lemma {:induction false} OnlyItems(buffer: seq<Byte>, p: nat, n: nat, read: seq<Value>) returns (items: seq<Item>)
    requires ItemsWithin(buffer, p, n, read)
    ensures |items| == n && (forall i :: 0 <= i < n ==> WellFormed(items[i])) && HasAt(buffer, p, EncodeItems(items))
    decreases Remaining(buffer, At(p)), 1, n
  {
    if n == 0 {
      items := [];
    } else {
      hide *;
      var q, more := FirstItem(buffer, p, n, read);
      var first := OnlyEncodings(buffer, p);
      var rest := OnlyItems(buffer, q, n - 1, more);
      JoinItems(buffer, p, first, rest);
      items := [first] + rest;
    }
  }

  lemma FirstItem(buffer: seq<Byte>, p: nat, n: nat, read: seq<Value>) returns (q: nat, more: seq<Value>)
    requires ItemsWithin(buffer, p, n, read) && n > 0
    ensures Within(Parse(buffer, At(p)), buffer) && Parse(buffer, At(p)).pos == At(q)
    ensures Remaining(buffer, At(q)) < Remaining(buffer, At(p)) && ItemsWithin(buffer, q, n - 1, more)
  {
    hide Parse;
    var item := Parse(buffer, At(p));
    q, more := item.pos.offset, read + [item.value];
  }

  lemma JoinItems(buffer: seq<Byte>, p: nat, first: Item, rest: seq<Item>)
    requires WellFormed(first) && HasAt(buffer, p, Encode(first))
    requires (forall i :: 0 <= i < |rest| ==> WellFormed(rest[i])) && HasAt(buffer, p + |Encode(first)|, EncodeItems(rest))
    ensures forall i :: 0 <= i < |[first] + rest| ==> WellFormed(([first] + rest)[i])
    ensures HasAt(buffer, p, EncodeItems([first] + rest))
  {
    hide WellFormed, Encode, HasAt;
    assert ([first] + rest)[1..] == rest;
    JoinParts(buffer, p, Encode(first), EncodeItems(rest));
  }

  predicate EntriesWithin(buffer: seq<Byte>, p: nat, n: nat, read: seq<(Value, Value)>) {
    var r := ParseEntries(buffer, At(p), n, read);
    r.Ok? && r.pos.At? && r.pos.offset <= |buffer| && p <= |buffer|
  }

  lemma {:induction false} OnlyPairs(buffer: seq<Byte>, p: nat, n: nat, read: seq<(Value, Value)>) returns (pairs: seq<Pair>)
    requires EntriesWithin(buffer, p, n, read)
    ensures |pairs| == n && WellFormedPairs(pairs)
    ensures HasAt(buffer, p, EncodePairs(pairs))
    decreases Remaining(buffer, At(p)), 1, n
  {
    if n == 0 {
      pairs := [];
    } else {
      hide *;
      var q, more := FirstEntry(buffer, p, n, read);
      var pair := OnlyPair(buffer, p);
      var rest := OnlyPairs(buffer, q, n - 1, more);
      JoinPairs(buffer, p, pair, rest);
      pairs := [pair] + rest;
    }
  }

  /** A map that ends within the buffer has its first entry there, and the rest. */
  lemma FirstEntry(buffer: seq<Byte>, p: nat, n: nat, read: seq<(Value, Value)>) returns (q: nat, more: seq<(Value, Value)>)
    requires EntriesWithin(buffer, p, n, read) && n > 0
    ensures Within(Parse(buffer, At(p)), buffer) && Within(Parse(buffer, Parse(buffer, At(p)).pos), buffer)
    ensures Parse(buffer, Parse(buffer, At(p)).pos).pos == At(q)
    ensures Remaining(buffer, At(q)) < Remaining(buffer, At(p)) && EntriesWithin(buffer, q, n - 1, more)
  {
    hide Parse, Set;
    var key := Parse(buffer, At(p));
    var value := Parse(buffer, key.pos);
    q, more := value.pos.offset, Set(read, key.value, value.value);
  }

  lemma JoinPairs(buffer: seq<Byte>, p: nat, pair: Pair, rest: seq<Pair>)
    requires WellFormedPair(pair) && HasAt(buffer, p, EncodePair(pair))
    requires WellFormedPairs(rest)
    requires HasAt(buffer, p + |EncodePair(pair)|, EncodePairs(rest))
    ensures
      var pairs := [pair] + rest;
      WellFormedPairs(pairs) && HasAt(buffer, p, EncodePairs(pairs))
  {
    hide WellFormedPair, EncodePair, HasAt;
    var pairs := [pair] + rest;
    assert pairs[1..] == rest;
    JoinParts(buffer, p, EncodePair(pair), EncodePairs(rest));
  }

  lemma {:induction false} OnlyPair(buffer: seq<Byte>, p: nat) returns (pair: Pair)
    requires Within(Parse(buffer, At(p)), buffer) && Within(Parse(buffer, Parse(buffer, At(p)).pos), buffer)
    ensures WellFormedPair(pair) && HasAt(buffer, p, EncodePair(pair))
    ensures Parse(buffer, Parse(buffer, At(p)).pos).pos == At(p + |EncodePair(pair)|)
    decreases Remaining(buffer, At(p)), 1, 0
  {
    hide Parse, HasAt, EncodePair;
    var k := OnlyEncodings(buffer, p);
    var v := OnlyEncodings(buffer, Parse(buffer, At(p)).pos.offset);
    pair := Pair(k, v);
    JoinPair(buffer, p, pair);
  }

  lemma JoinPair(buffer: seq<Byte>, p: nat, pair: Pair)
    requires WellFormedPair(pair)
    requires HasAt(buffer, p, Encode(pair.key)) && HasAt(buffer, p + |Encode(pair.key)|, Encode(pair.value))
    ensures HasAt(buffer, p, EncodePair(pair)) && |EncodePair(pair)| == |Encode(pair.key)| + |Encode(pair.value)|
  {
    JoinParts(buffer, p, Encode(pair.key), Encode(pair.value));
  }

  ghost predicate IsEncoding(s: seq<Byte>, v: Value) {
    exists e :: WellFormed(e) && Encode(e) == s && Meaning(e) == v
  }

  /** Within the buffer the reader accepts exactly the encodings: it returns `v` and stops at `p` if and only if the bytes
      it passed are an encoding of `v`. */
  lemma ReadsExactlyEncodings(buffer: seq<Byte>, o: nat, p: nat, v: Value)
    requires o <= p <= |buffer|
    ensures Parse(buffer, At(o)) == Ok(v, At(p)) <==> IsEncoding(buffer[o..p], v)
  {
    hide Parse, Encode, Meaning, WellFormed;
    if Parse(buffer, At(o)) == Ok(v, At(p)) {
      var e := OnlyEncodings(buffer, o);
      assert buffer[o..p] == Encode(e);
    }
    if IsEncoding(buffer[o..p], v) {
      var e :| WellFormed(e) && Encode(e) == buffer[o..p] && Meaning(e) == v;
      ReadBack(buffer, o, e);
    }
  }

  /** An encoding starts at offset `o` and ends within the buffer. */
  ghost predicate HasEncoding(buffer: seq<Byte>, o: nat) {
    exists p: nat, v :: EncodesUpTo(buffer, o, p, v)
  }

  ghost predicate EncodesUpTo(buffer: seq<Byte>, o: nat, p: nat, v: Value) {
    o <= p <= |buffer| && IsEncoding(buffer[o..p], v)
  }

  /** Input that is not an encoding: the reader ends within the buffer exactly when an encoding starts at the offset.  So
      a read of anything else that does not throw returns a value and leaves the offset past the end or lost. */
  lemma EndsWithinExactly(buffer: seq<Byte>, o: nat)
    ensures Within(Parse(buffer, At(o)), buffer) <==> HasEncoding(buffer, o)
  {
    if Within(Parse(buffer, At(o)), buffer) {
      WithinIsOrdered(buffer, o);
      var r := Parse(buffer, At(o));
      ReadsExactlyEncodings(buffer, o, r.pos.offset, r.value);
      assert EncodesUpTo(buffer, o, r.pos.offset, r.value);
    }
    hide Parse, IsEncoding;
    if HasEncoding(buffer, o) {
      var p: nat, v :| EncodesUpTo(buffer, o, p, v);
      ReadsExactlyEncodings(buffer, o, p, v);
    }
  }

  lemma WithinIsOrdered(buffer: seq<Byte>, o: nat)
    requires Within(Parse(buffer, At(o)), buffer)
    ensures o <= Parse(buffer, At(o)).pos.offset <= |buffer|
  {
    hide Parse;
  }

  /** A string that is cut short is accepted with the bytes that are there, although no encoding is. */
  lemma CutStringIsAccepted(w: Width, n: nat, s: seq<Byte>, text: bool)
    requires Fits(w, n) && |s| < n
    ensures
      var head := Head(if text then 3 else 2, w, n);
      && Parse(head + s, At(0)) == Ok(if text then Text(s) else Bytes(s), At(|head| + n))
      && !HasEncoding(head + s, 0)
  {
    hide *;
    var head := Head(if text then 3 else 2, w, n);
    CutParts(head, s, n);
    StringParsed(head + s, 0, text, w, n);
    EndsWithinExactly(head + s, 0);
    PastTheEnd(Parse(head + s, At(0)), head + s, |head| + n);
  }

  lemma CutParts(head: seq<Byte>, s: seq<Byte>, n: nat)
    requires |s| < n
    ensures HasAt(head + s, 0, head) && Sub(head + s, |head|, n) == s && |head| + n > |head + s|
  {
    assert (head + s)[0..|head|] == head;
  }

  lemma PastTheEnd(r: Result<Value>, buffer: seq<Byte>, p: nat)
    requires r.Ok? && r.pos == At(p) && p > |buffer|
    ensures !Within(r, buffer)
  {
  }

  /** After the head of a string the reader takes what is there of its bytes. */
  lemma StringParsed(buffer: seq<Byte>, o: nat, text: bool, w: Width, n: nat)
    requires Fits(w, n) && HasAt(buffer, o, Head(if text then 3 else 2, w, n))
    ensures
      var p := o + |Head(if text then 3 else 2, w, n)|;
      Parse(buffer, At(o)) == Ok(if text then Text(Sub(buffer, p, n)) else Bytes(Sub(buffer, p, n)), At(p + n))
  {
    HeadReadsBack(buffer, o, if text then 3 else 2, w, n);
    hide ReadLength, Head, Fits, HasAt, Sub;
  }

  /** So is a string whose one-byte length is missing: it is empty and the offset is lost. */
  lemma MissingLengthIsAccepted(text: bool)
    ensures
      var buffer: seq<Byte> := [32 * (if text then 3 else 2) + 24];
      Parse(buffer, At(0)) == Ok(if text then Text([]) else Bytes([]), Lost) && !HasEncoding(buffer, 0)
  {
    var buffer: seq<Byte> := [32 * (if text then 3 else 2) + 24];
    EndsWithinExactly(buffer, 0);
    hide HasEncoding;
  }

  /** What a head whose one-byte length is missing reads as, by its major type: undefined or NaN for a number, an empty string
      with the offset lost, an empty array or map, a tagged 0; only major type 7 throws. */
  lemma MissingLengthReads(buffer: seq<Byte>, o: nat, major: nat)
    requires major < 8 && o + 1 == |buffer| && buffer[o] == 32 * major + 24
    ensures
      Parse(buffer, At(o))
      == if major == 0 then Ok(Undefined, At(o + 2))
         else if major == 1 then Ok(NaN, At(o + 2))
         else if major == 2 then Ok(Bytes([]), Lost)
         else if major == 3 then Ok(Text([]), Lost)
         else if major == 4 then Ok(Arr([]), At(o + 2))
         else if major == 5 then Ok(Map([]), At(o + 2))
         else if major == 6 then Ok(Num(0), At(o + 3))
         else Fail(UnsupportedData)
  {
    assert buffer[o] / 32 == major && buffer[o] % 32 == 24;
    if major == 6 {
      assert Parse(buffer, At(o + 2)) == Ok(Num(0), At(o + 3));
    }
  }

  /** Past the end: a missing byte is read as the number 0 and the offset runs past the end. */
  lemma MissingBytesReadAsZero(buffer: seq<Byte>, o: nat)
    ensures Parse(buffer, At(o)) == Ok(Num(0), At(o + 1)) <==> o >= |buffer| || buffer[o] == 0
  {
    if o < |buffer| && Parse(buffer, At(o)) == Ok(Num(0), At(o + 1)) {
      var e := OnlyEncodings(buffer, o);
      ShortZero(buffer, o, e);
    }
  }

  lemma ShortZero(buffer: seq<Byte>, o: nat, e: Item)
    requires o < |buffer| && WellFormed(e) && HasAt(buffer, o, Encode(e)) && |Encode(e)| == 1 && Meaning(e) == Num(0)
    ensures buffer[o] == 0
  {
    assert buffer[o] == Encode(e)[0];
  }
}
