/** Public keys and attestation objects read with the CBOR reader: section 7.1.1 of RFC 9053 for EC2 keys and section 4
    of RFC 8230 for RSA keys. */
module Cose {
  import opened Types
  import opened Cbor

  datatype Jwk = Es256(x: seq<Byte>, y: seq<Byte>) | Rs256(n: seq<Byte>, e: seq<Byte>)

  datatype Failure =
    | Undecodable(error: Error)
    | InvalidCoseKey
    | InvalidEc2Key
    | InvalidRsaKey
    | UnsupportedAlgorithm
    | InvalidAttestation
    | MissingAuthData
    | AuthDataTooShort

  datatype Verdict<T> = Success(value: T) | Failed(failure: Failure)

  predicate IsBytes(v: Option<Value>) { v.Some? && v.value.Bytes? }

  /** coseToJwk */
  function CoseToJwk(buffer: seq<Byte>): Verdict<Jwk> {
    var decoded := Parse(buffer, At(0));
    if decoded.Fail? then Failed(Undecodable(decoded.error))
    else if !decoded.value.Map? then Failed(InvalidCoseKey)
    else KeyOf(decoded.value.entries)
  }

  function KeyOf(key: seq<(Value, Value)>): Verdict<Jwk> {
    var kty, alg := Get(key, Num(1)), Get(key, Num(3));
    if kty == Some(Num(2)) && alg == Some(Num(-7)) then
      var x, y := Get(key, Num(-2)), Get(key, Num(-3));
      if !IsBytes(x) || !IsBytes(y) then Failed(InvalidEc2Key) else Success(Es256(x.value.bytes, y.value.bytes))
    else if kty == Some(Num(3)) && alg == Some(Num(-257)) then
      var n, e := Get(key, Num(-1)), Get(key, Num(-2));
      if !IsBytes(n) || !IsBytes(e) then Failed(InvalidRsaKey) else Success(Rs256(n.value.bytes, e.value.bytes))
    else Failed(UnsupportedAlgorithm)
  }

  // ---- looking keys up ----------------------------------------------------------------------

  /** The value of the last entry with this key. */
  function LastValue(pairs: seq<Pair>, key: Value): Option<Value> {
    if pairs == [] then None
    else
      var later := LastValue(pairs[1..], key);
      if later.Some? then later else if Meaning(pairs[0].key) == key then Some(Meaning(pairs[0].value)) else None
  }

  lemma {:induction false} FirstIndex(entries: seq<(Value, Value)>, key: Value, i: nat)
    requires i <= |entries| && (i < |entries| ==> entries[i].0 == key)
    requires forall j :: 0 <= j < i ==> entries[j].0 != key
    ensures IndexOf(entries, key) == i
  {
  }

  lemma GetSet(entries: seq<(Value, Value)>, k: Value, v: Value, key: Value)
    requires IsPrimitive(key)
    ensures Get(Set(entries, k, v), key) == if k == key then Some(v) else Get(entries, key)
  {
    var after, i, j := Set(entries, k, v), IndexOf(entries, key), IndexOf(entries, k);
    hide IndexOf;
    if k == key {
      FirstIndex(after, key, i);
    } else if i < |entries| {
      FirstIndex(after, key, i);
    } else {
      FirstIndex(after, key, |after|);
    }
  }

  lemma {:induction false} GetFolded(pairs: seq<Pair>, read: seq<(Value, Value)>, key: Value)
    requires IsPrimitive(key)
    ensures Get(MeaningPairs(pairs, read), key) == if LastValue(pairs, key).Some? then LastValue(pairs, key) else Get(read, key)
  {
    hide Get, Set, Meaning;
    if pairs != [] {
      var k, v := Meaning(pairs[0].key), Meaning(pairs[0].value);
      GetFolded(pairs[1..], Set(read, k, v), key);
      GetSet(read, k, v, key);
    }
  }

  /** A decoded map gives, for every primitive key, the value of the last entry that has it. */
  lemma GetIsLast(w: Width, pairs: seq<Pair>, key: Value)
    requires IsPrimitive(key)
    ensures Get(Meaning(MapItem(w, pairs)).entries, key) == LastValue(pairs, key)
  {
    GetFolded(pairs, [], key);
  }

  ghost predicate DistinctKeys(pairs: seq<Pair>) {
    forall i, j :: 0 <= i < j < |pairs| ==> Meaning(pairs[i].key) != Meaning(pairs[j].key)
  }

  ghost predicate Holds(pairs: seq<Pair>, key: Value, value: Value) {
    exists i :: 0 <= i < |pairs| && Meaning(pairs[i].key) == key && Meaning(pairs[i].value) == value
  }

  /** With distinct keys the place of an entry does not matter. */
  lemma {:induction false} PlaceDoesNotMatter(pairs: seq<Pair>, key: Value, value: Value)
    requires DistinctKeys(pairs)
    ensures LastValue(pairs, key) == Some(value) <==> Holds(pairs, key, value)
  {
    hide Meaning;
    if pairs != [] {
      var rest := pairs[1..];
      PlaceDoesNotMatter(rest, key, value);
      if Holds(rest, key, value) {
        var i :| 0 <= i < |rest| && Meaning(rest[i].key) == key && Meaning(rest[i].value) == value;
        assert pairs[i + 1] == rest[i];
      }
      if Meaning(pairs[0].key) == key {
        assert pairs[0] == pairs[0];
        NoLater(pairs, key);
      }
      if Holds(pairs, key, value) {
        var i :| 0 <= i < |pairs| && Meaning(pairs[i].key) == key && Meaning(pairs[i].value) == value;
        if i > 0 {
          assert rest[i - 1] == pairs[i];
        }
      }
    }
  }

  lemma {:induction false} NotHeld(pairs: seq<Pair>, key: Value)
    requires forall i :: 0 <= i < |pairs| ==> Meaning(pairs[i].key) != key
    ensures LastValue(pairs, key) == None
  {
    hide Meaning;
    if pairs != [] {
      NotHeld(pairs[1..], key);
    }
  }

  lemma NoLater(pairs: seq<Pair>, key: Value)
    requires DistinctKeys(pairs) && pairs != [] && Meaning(pairs[0].key) == key
    ensures LastValue(pairs[1..], key) == None
  {
    hide Meaning, LastValue;
    forall i | 0 <= i < |pairs[1..]| ensures Meaning(pairs[1..][i].key) != key {
      assert pairs[1..][i] == pairs[i + 1];
    }
    NotHeld(pairs[1..], key);
  }

  // ---- public keys --------------------------------------------------------------------------

  /** The buffer is an encoded map and whatever follows it. */
  predicate EncodesMap(buffer: seq<Byte>, w: Width, pairs: seq<Pair>) {
    WellFormed(MapItem(w, pairs)) && HasAt(buffer, 0, Encode(MapItem(w, pairs)))
  }

  /** An ES256 key is recovered exactly from its four fields, whatever other entries the map has and whatever follows. */
  lemma EcKeyExactly(buffer: seq<Byte>, w: Width, pairs: seq<Pair>, x: seq<Byte>, y: seq<Byte>)
    requires EncodesMap(buffer, w, pairs)
    ensures CoseToJwk(buffer) == Success(Es256(x, y)) <==>
      && LastValue(pairs, Num(1)) == Some(Num(2)) && LastValue(pairs, Num(3)) == Some(Num(-7))
      && LastValue(pairs, Num(-2)) == Some(Bytes(x)) && LastValue(pairs, Num(-3)) == Some(Bytes(y))
  {
    hide CoseToJwk, LastValue, Get, EncodesMap, Meaning;
    DecodedMap(buffer, w, pairs);
    Lookups(w, pairs);
  }

  lemma DecodedMap(buffer: seq<Byte>, w: Width, pairs: seq<Pair>)
    requires EncodesMap(buffer, w, pairs)
    ensures CoseToJwk(buffer) == KeyOf(Meaning(MapItem(w, pairs)).entries)
  {
    ReadBack(buffer, 0, MapItem(w, pairs));
    assert Meaning(MapItem(w, pairs)).Map?;
    hide Parse, Encode, Meaning, HasAt, WellFormed, KeyOf;
  }

  lemma Lookups(w: Width, pairs: seq<Pair>)
    ensures
      var key := Meaning(MapItem(w, pairs)).entries;
      && Get(key, Num(1)) == LastValue(pairs, Num(1)) && Get(key, Num(3)) == LastValue(pairs, Num(3))
      && Get(key, Num(-1)) == LastValue(pairs, Num(-1)) && Get(key, Num(-2)) == LastValue(pairs, Num(-2))
      && Get(key, Num(-3)) == LastValue(pairs, Num(-3))
  {
    hide Get, LastValue, MeaningPairs;
    GetIsLast(w, pairs, Num(1));
    GetIsLast(w, pairs, Num(3));
    GetIsLast(w, pairs, Num(-1));
    GetIsLast(w, pairs, Num(-2));
    GetIsLast(w, pairs, Num(-3));
  }

  /** An RS256 key likewise. */
  lemma RsaKeyExactly(buffer: seq<Byte>, w: Width, pairs: seq<Pair>, n: seq<Byte>, e: seq<Byte>)
    requires EncodesMap(buffer, w, pairs)
    ensures CoseToJwk(buffer) == Success(Rs256(n, e)) <==>
      && LastValue(pairs, Num(1)) == Some(Num(3)) && LastValue(pairs, Num(3)) == Some(Num(-257))
      && LastValue(pairs, Num(-1)) == Some(Bytes(n)) && LastValue(pairs, Num(-2)) == Some(Bytes(e))
  {
    hide CoseToJwk, LastValue, Get, EncodesMap, Meaning;
    DecodedMap(buffer, w, pairs);
    Lookups(w, pairs);
  }

  /** In any order of a map with distinct keys: the four fields are enough. */
  lemma EcKeyInAnyOrder(buffer: seq<Byte>, w: Width, pairs: seq<Pair>, x: seq<Byte>, y: seq<Byte>)
    requires EncodesMap(buffer, w, pairs) && DistinctKeys(pairs)
    requires Holds(pairs, Num(1), Num(2)) && Holds(pairs, Num(3), Num(-7))
    requires Holds(pairs, Num(-2), Bytes(x)) && Holds(pairs, Num(-3), Bytes(y))
    ensures CoseToJwk(buffer) == Success(Es256(x, y))
  {
    hide *;
    PlaceDoesNotMatter(pairs, Num(1), Num(2));
    PlaceDoesNotMatter(pairs, Num(3), Num(-7));
    PlaceDoesNotMatter(pairs, Num(-2), Bytes(x));
    PlaceDoesNotMatter(pairs, Num(-3), Bytes(y));
    EcKeyExactly(buffer, w, pairs, x, y);
  }

  lemma RsaKeyInAnyOrder(buffer: seq<Byte>, w: Width, pairs: seq<Pair>, n: seq<Byte>, e: seq<Byte>)
    requires EncodesMap(buffer, w, pairs) && DistinctKeys(pairs)
    requires Holds(pairs, Num(1), Num(3)) && Holds(pairs, Num(3), Num(-257))
    requires Holds(pairs, Num(-1), Bytes(n)) && Holds(pairs, Num(-2), Bytes(e))
    ensures CoseToJwk(buffer) == Success(Rs256(n, e))
  {
    hide *;
    PlaceDoesNotMatter(pairs, Num(1), Num(3));
    PlaceDoesNotMatter(pairs, Num(3), Num(-257));
    PlaceDoesNotMatter(pairs, Num(-1), Bytes(n));
    PlaceDoesNotMatter(pairs, Num(-2), Bytes(e));
    RsaKeyExactly(buffer, w, pairs, n, e);
  }

  // ---- attestation --------------------------------------------------------------------------

  datatype Credential = Credential(id: seq<Byte>, signCount: nat, key: Jwk)

  /** 'authData' */
  const AUTH_DATA: seq<Byte> := [97, 117, 116, 104, 68, 97, 116, 97]

  function U32(a: Byte, b: Byte, c: Byte, d: Byte): nat { 0x1_0000 * U16(a, b) + U16(c, d) }

  /** parseAttestationObject */
  function ParseAttestation(buffer: seq<Byte>): Verdict<Credential> {
    var decoded := Parse(buffer, At(0));
    if decoded.Fail? then Failed(Undecodable(decoded.error))
    else if !decoded.value.Map? then Failed(InvalidAttestation)
    else
      var authData := Get(decoded.value.entries, Text(AUTH_DATA));
      if !IsBytes(authData) then Failed(MissingAuthData) else CredentialOf(authData.value.bytes)
  }

  function CredentialOf(a: seq<Byte>): Verdict<Credential> {
    if |a| < 55 then Failed(AuthDataTooShort)
    else
      var end := Min(55 + U16(a[53], a[54]), |a|);
      var key := CoseToJwk(a[end..]);
      if key.Failed? then Failed(key.failure)
      else Success(Credential(a[55..end], U32(a[33], a[34], a[35], a[36]), key.value))
  }

  /** Authenticator data: 33 bytes, the sign count, 16 bytes, the length of the credential id, the id, the public key. */
  function AuthData(start: seq<Byte>, signCount: nat, aaguid: seq<Byte>, id: seq<Byte>, key: seq<Byte>): seq<Byte>
    requires |start| == 33 && signCount < 0x1_0000_0000 && |aaguid| == 16 && |id| < 0x1_0000
  {
    start + (Be16(signCount / 0x1_0000) + Be16(signCount % 0x1_0000)) + aaguid + Be16(|id|) + id + key
  }

  /** Authenticator data is taken apart into what it was put together from. */
  lemma AuthDataRoundTrip(start: seq<Byte>, signCount: nat, aaguid: seq<Byte>, id: seq<Byte>, key: seq<Byte>)
    requires |start| == 33 && signCount < 0x1_0000_0000 && |aaguid| == 16 && |id| < 0x1_0000
    ensures
      var r := CredentialOf(AuthData(start, signCount, aaguid, id, key));
      match CoseToJwk(key)
      case Success(jwk) => r == Success(Credential(id, signCount, jwk))
      case Failed(failure) => r == Failed(failure)
  {
    hide U16, Be16, CoseToJwk;
    var a := AuthData(start, signCount, aaguid, id, key);
    var high, low, len := Be16(signCount / 0x1_0000), Be16(signCount % 0x1_0000), Be16(|id|);
    assert a[33] == high[0] && a[34] == high[1] && a[35] == low[0] && a[36] == low[1];
    assert a[53] == len[0] && a[54] == len[1];
    assert a[55..55 + |id|] == id && a[55 + |id|..] == key;
  }

  /** End to end: an attestation map in any order whose authenticator data holds an ES256 key gives back the credential
      id, the sign count and the key, with trailing bytes at both levels. */
  lemma AttestationRoundTrip(buffer: seq<Byte>, w: Width, pairs: seq<Pair>, start: seq<Byte>, signCount: nat, aaguid: seq<Byte>, id: seq<Byte>, key: seq<Byte>)
    requires |start| == 33 && signCount < 0x1_0000_0000 && |aaguid| == 16 && |id| < 0x1_0000
    requires EncodesMap(buffer, w, pairs) && DistinctKeys(pairs)
    requires Holds(pairs, Text(AUTH_DATA), Bytes(AuthData(start, signCount, aaguid, id, key)))
    ensures
      match CoseToJwk(key)
      case Success(jwk) => ParseAttestation(buffer) == Success(Credential(id, signCount, jwk))
      case Failed(failure) => ParseAttestation(buffer) == Failed(failure)
  {
    ReadBack(buffer, 0, MapItem(w, pairs));
    assert Meaning(MapItem(w, pairs)).Map?;
    hide Parse, Encode, Meaning, LastValue, Get, HasAt, WellFormed, CoseToJwk, AuthData, CredentialOf, Holds, DistinctKeys;
    GetIsLast(w, pairs, Text(AUTH_DATA));
    PlaceDoesNotMatter(pairs, Text(AUTH_DATA), Bytes(AuthData(start, signCount, aaguid, id, key)));
    AuthDataRoundTrip(start, signCount, aaguid, id, key);
  }
}
