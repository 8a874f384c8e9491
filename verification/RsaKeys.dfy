/**
 * Admission of RSA signing keys (`oidc_rs256` in crates/bicdb-app-runtime/src/auth.rs):
 * bounds on big-endian integers in the minimal encoding of sections 2 and 6.3.1 of
 * RFC 7518.
 */
module RsaKeys {
  import opened Prelude
  import opened Text

  type Byte = b: int | 0 <= b < 256

  type Bytes = seq<Byte>

  const WORD := 0x1_0000_0000_0000_0000
  const MIN_MODULUS_BITS := 2048
  const MAX_MODULUS_BITS := 8192
  const MAX_EXPONENT_BYTES := 5
  const EXPONENT_BITS := 33
  const MAX_ENCODED_MODULUS := 1366
  const MAX_ENCODED_EXPONENT := 7

  // ---------------------------------------------------------------- the code's arithmetic

  function LeadingZeros(b: Byte): (zeros: nat)
    ensures zeros <= 8
  {
    if b >= 128 then 0 else if b >= 64 then 1 else if b >= 32 then 2 else if b >= 16 then 3
    else if b >= 8 then 4 else if b >= 4 then 5 else if b >= 2 then 6 else if b >= 1 then 7 else 8
  }

  function BitCount(n: Bytes): nat {
    if n == [] then 0 else |n| * 8 - LeadingZeros(n[0])
  }

  /** The fold over 64-bit words: the product wraps, the sum does not need to. */
  function WrappingFold(e: Bytes): nat {
    if e == [] then 0 else WrappingFold(e[..|e| - 1]) * 256 % WORD + e[|e| - 1]
  }

  predicate Accepts(n: Bytes, e: Bytes) {
    && MIN_MODULUS_BITS <= BitCount(n) <= MAX_MODULUS_BITS
    && !(n != [] && n[0] == 0)
    && n != [] && n[|n| - 1] % 2 == 1
    && e != [] && |e| <= MAX_EXPONENT_BYTES && e[0] != 0
    && 3 <= WrappingFold(e) && WrappingFold(e) % 2 == 1
    && WrappingFold(e) <= Pow2(EXPONENT_BITS) - 1
  }

  // ---------------------------------------------------------------- what it means

  function Pow2(k: nat): (p: nat)
    ensures p > 0
  {
    if k == 0 then 1 else 2 * Pow2(k - 1)
  }

  /** The integer that the bytes encode, most significant byte first. */
  function Value(bytes: Bytes): nat {
    if bytes == [] then 0 else Value(bytes[..|bytes| - 1]) * 256 + bytes[|bytes| - 1]
  }

  predicate Minimal(bytes: Bytes) {
    bytes == [] || bytes[0] != 0
  }

  lemma {:induction false} Pow2Adds(a: nat, b: nat)
    ensures Pow2(a + b) == Pow2(a) * Pow2(b)
  {
    if a > 0 {
      Pow2Adds(a - 1, b);
    }
  }

  lemma {:induction false} Pow2Grows(a: nat, b: nat)
    requires a <= b
    ensures Pow2(a) <= Pow2(b)
  {
    if a < b {
      Pow2Grows(a, b - 1);
    }
  }

  lemma Pow2Byte(k: nat)
    ensures Pow2(k + 8) == 256 * Pow2(k)
  {
    assert Pow2(k + 8) == 2 * Pow2(k + 7);
    assert Pow2(k + 6) == 2 * Pow2(k + 5);
    assert Pow2(k + 4) == 2 * Pow2(k + 3);
    assert Pow2(k + 2) == 2 * Pow2(k + 1);
  }

  lemma {:induction false} ValueBound(bytes: Bytes)
    ensures Value(bytes) < Pow2(8 * |bytes|)
  {
    if bytes != [] {
      ValueBound(bytes[..|bytes| - 1]);
      Pow2Byte(8 * (|bytes| - 1));
    }
  }

  /** The first byte is the most significant digit. */
  lemma {:induction false} ValueFromFirst(bytes: Bytes)
    requires bytes != []
    ensures Value(bytes) == bytes[0] * Pow2(8 * (|bytes| - 1)) + Value(bytes[1..])
  {
    if |bytes| == 1 {
      assert bytes[..0] == [] && bytes[1..] == [];
    } else {
      var init, last, low := bytes[..|bytes| - 1], bytes[|bytes| - 1], 8 * (|bytes| - 2);
      ValueFromFirst(init);
      assert init[1..] == bytes[1..][..|bytes| - 2];
      assert Value(bytes[1..]) == Value(init[1..]) * 256 + last;
      Pow2Byte(low);
      Shifted(bytes[0], Pow2(low), Value(init[1..]), last);
    }
  }

  lemma Shifted(digit: nat, unit: nat, rest: nat, last: nat)
    ensures (digit * unit + rest) * 256 + last == digit * (256 * unit) + (rest * 256 + last)
  {
    assert digit * unit * 256 == digit * (256 * unit);
  }

  lemma FirstByteBounds(b: Byte)
    requires b != 0
    ensures Pow2(7 - LeadingZeros(b)) <= b < Pow2(8 - LeadingZeros(b))
  {
    assert Pow2(1) == 2 && Pow2(2) == 4 && Pow2(3) == 8 && Pow2(4) == 16;
    assert Pow2(5) == 32 && Pow2(6) == 64 && Pow2(7) == 128 && Pow2(8) == 256;
  }

  /** The bit count is the length of the binary numeral. */
  lemma BitCountIsBitLength(n: Bytes)
    requires n != [] && n[0] != 0
    ensures BitCount(n) >= 1 && Pow2(BitCount(n) - 1) <= Value(n) < Pow2(BitCount(n))
  {
    var low, zeros := 8 * (|n| - 1), LeadingZeros(n[0]);
    FirstByteBounds(n[0]);
    ValueFromFirst(n);
    ValueBound(n[1..]);
    Pow2Adds(7 - zeros, low);
    Pow2Adds(8 - zeros, low);
    assert BitCount(n) - 1 == 7 - zeros + low;
    ScaledBounds(Pow2(7 - zeros), n[0], Pow2(8 - zeros), Pow2(low), Value(n[1..]));
  }

  lemma ScaledBounds(least: nat, digit: nat, bound: nat, unit: nat, rest: nat)
    requires least <= digit < bound && rest < unit
    ensures least * unit <= digit * unit + rest < bound * unit
  {
    assert least * unit <= digit * unit;
    assert (digit + 1) * unit <= bound * unit;
  }

  lemma {:induction false} FoldDoesNotWrap(e: Bytes)
    requires |e| <= MAX_EXPONENT_BYTES
    ensures WrappingFold(e) == Value(e)
  {
    if e != [] {
      var init := e[..|e| - 1];
      FoldDoesNotWrap(init);
      ValueBound(init);
      Pow2Grows(8 * |init|, 32);
      assert Pow2(32) == 0x1_0000_0000 by {
        Pow2Adds(16, 16);
        Pow2Adds(8, 8);
        assert Pow2(8) == 256;
      }
    }
  }

  lemma Parity(bytes: Bytes)
    requires bytes != []
    ensures Value(bytes) % 2 == bytes[|bytes| - 1] % 2
  {
  }

  /** An odd modulus of 2048 to 8192 bits and an odd exponent below 2^33, both minimally encoded. */
  predicate InRange(n: Bytes, e: Bytes) {
    && Minimal(n) && Value(n) % 2 == 1
    && Pow2(MIN_MODULUS_BITS - 1) <= Value(n) < Pow2(MAX_MODULUS_BITS)
    && Minimal(e) && Value(e) % 2 == 1 && 3 <= Value(e) < Pow2(EXPONENT_BITS)
  }

  lemma ModulusExactly(n: Bytes)
    ensures (MIN_MODULUS_BITS <= BitCount(n) <= MAX_MODULUS_BITS && n != [] && n[0] != 0 && n[|n| - 1] % 2 == 1) <==>
            (Minimal(n) && Value(n) % 2 == 1 && Pow2(MIN_MODULUS_BITS - 1) <= Value(n) < Pow2(MAX_MODULUS_BITS))
  {
    if n != [] && n[0] != 0 {
      Parity(n);
      ModulusBits(n);
    }
  }

  lemma ExponentExactly(e: Bytes)
    ensures (e != [] && |e| <= MAX_EXPONENT_BYTES && e[0] != 0 && 3 <= WrappingFold(e) && WrappingFold(e) % 2 == 1
             && WrappingFold(e) <= Pow2(EXPONENT_BITS) - 1) <==>
            (Minimal(e) && Value(e) % 2 == 1 && 3 <= Value(e) < Pow2(EXPONENT_BITS))
  {
    if e != [] && e[0] != 0 {
      if |e| <= MAX_EXPONENT_BYTES {
        FoldDoesNotWrap(e);
      } else {
        LongExponent(e);
      }
    }
  }

  /**
   * A key is accepted exactly when the modulus is an odd integer of 2048 to 8192 bits,
   * the exponent is odd with 3 <= e < 2^33, and both are minimally encoded.
   */
  lemma AcceptsExactly(n: Bytes, e: Bytes)
    ensures Accepts(n, e) <==> InRange(n, e)
  {
    ModulusExactly(n);
    ExponentExactly(e);
  }

  lemma BitsAtLeast(n: Bytes, bits: nat)
    requires n != [] && n[0] != 0 && bits > 0
    ensures bits <= BitCount(n) <==> Pow2(bits - 1) <= Value(n)
  {
    BitCountIsBitLength(n);
    if BitCount(n) < bits {
      Pow2Grows(BitCount(n), bits - 1);
    } else {
      Pow2Grows(bits - 1, BitCount(n) - 1);
    }
  }

  lemma ModulusBits(n: Bytes)
    requires n != [] && n[0] != 0
    ensures MIN_MODULUS_BITS <= BitCount(n) <= MAX_MODULUS_BITS <==>
            Pow2(MIN_MODULUS_BITS - 1) <= Value(n) < Pow2(MAX_MODULUS_BITS)
  {
    BitsAtLeast(n, MIN_MODULUS_BITS);
    BitsAtLeast(n, MAX_MODULUS_BITS + 1);
  }

  lemma LongExponent(e: Bytes)
    requires |e| > MAX_EXPONENT_BYTES && e[0] != 0
    ensures Value(e) >= Pow2(EXPONENT_BITS)
  {
    BitCountIsBitLength(e);
    Pow2Grows(EXPONENT_BITS, BitCount(e) - 1);
  }

  // ---------------------------------------------------------------- the key set

  datatype Jwk = Jwk(kid: string, kty: string, n: string, e: string, alg: Option<string>, use: Option<string>)

  datatype Key = Key(n: Bytes, e: Bytes)

  type Decoder = string -> Option<Bytes>

  predicate Usable(key: Jwk, decode: Decoder) {
    && Trim(key.kid, IsSpace) != "" && key.kty == "RSA"
    && (key.alg.Some? ==> key.alg.value == "RS256") && (key.use.Some? ==> key.use.value == "sig")
    && |key.n| <= MAX_ENCODED_MODULUS && |key.e| <= MAX_ENCODED_EXPONENT
    && decode(key.n).Some? && decode(key.e).Some?
    && Accepts(decode(key.n).value, decode(key.e).value)
  }

  predicate AllSpace(s: string) {
    forall i :: 0 <= i < |s| ==> IsSpace(s[i])
  }

  lemma {:induction false} StartKeepsBlank(s: string)
    ensures AllSpace(TrimStart(s, IsSpace)) <==> AllSpace(s)
  {
    if s != "" && IsSpace(s[0]) {
      StartKeepsBlank(s[1..]);
      assert forall i :: 0 <= i < |s| - 1 ==> s[1..][i] == s[i + 1];
      assert AllSpace(s[1..]) ==> forall i :: 1 <= i < |s| ==> s[i] == s[1..][i - 1];
    }
  }

  lemma {:induction false} EndKeepsBlank(s: string)
    ensures TrimEnd(s, IsSpace) == "" <==> AllSpace(s)
  {
    if s != "" && IsSpace(s[|s| - 1]) {
      EndKeepsBlank(s[..|s| - 1]);
      assert forall i :: 0 <= i < |s| - 1 ==> s[..|s| - 1][i] == s[i];
    }
  }

  /**
   * An entry is usable exactly when it is an RSA signature key that is named, does not say
   * otherwise, and has a modulus and an exponent in the admitted ranges.
   */
  lemma UsableExactly(key: Jwk, decode: Decoder)
    ensures Usable(key, decode) <==>
      && !AllSpace(key.kid)
      && key.kty == "RSA" && key.alg in {None, Some("RS256")} && key.use in {None, Some("sig")}
      && |key.n| <= 1366 && |key.e| <= 7 && decode(key.n).Some? && decode(key.e).Some?
      && InRange(decode(key.n).value, decode(key.e).value)
  {
    StartKeepsBlank(key.kid);
    EndKeepsBlank(TrimStart(key.kid, IsSpace));
    if decode(key.n).Some? && decode(key.e).Some? {
      AcceptsExactly(decode(key.n).value, decode(key.e).value);
    }
  }

  /** The key of an entry, if it is usable. */
  function KeyOf(key: Jwk, decode: Decoder): Option<Key> {
    if Usable(key, decode) then Some(Key(decode(key.n).value, decode(key.e).value)) else None
  }

  ghost predicate DistinctIds(document: seq<Jwk>) {
    forall i, j :: 0 <= i < j < |document| ==> document[i].kid != document[j].kid
  }

  /** `keys` holds the key of every entry of `document` under its identifier, and nothing else. */
  ghost predicate Holds(keys: map<string, Key>, document: seq<Jwk>, load: Jwk -> Option<Key>) {
    && (forall i :: 0 <= i < |document| ==>
          document[i].kid in keys && load(document[i]) == Some(keys[document[i].kid]))
    && (forall kid :: kid in keys ==> exists i :: 0 <= i < |document| && document[i].kid == kid)
  }

  /** The keys of a document are loaded all or not at all, and each identifier names one key. */
  method LoadKeys(document: seq<Jwk>, load: Jwk -> Option<Key>) returns (keys: Option<map<string, Key>>)
    ensures keys.Some? <==>
      document != [] && DistinctIds(document) && forall i :: 0 <= i < |document| ==> load(document[i]).Some?
    ensures keys.Some? ==> Holds(keys.value, document, load)
  {
    var loaded: map<string, Key> := map[];
    for i := 0 to |document|
      invariant DistinctIds(document[..i]) && Holds(loaded, document[..i], load)
    {
      assert document[..i + 1] == document[..i] + [document[i]];
      var key := load(document[i]);
      if key.None? {
        return None;
      }
      if document[i].kid in loaded {
        assert !DistinctIds(document);
        return None;
      }
      loaded := loaded[document[i].kid := key.value];
      assert document[..i + 1][i].kid == document[i].kid;
    }
    assert document[..|document|] == document;
    assert document != [] ==> document[0].kid in loaded;
    if loaded == map[] {
      return None;
    }
    return Some(loaded);
  }

  /**
   * A document is loaded exactly when it is not empty, its identifiers differ and every
   * entry is usable; each loaded key is then one that `AcceptsExactly` describes.
   */
  method LoadDocument(document: seq<Jwk>, decode: Decoder) returns (keys: Option<map<string, Key>>)
    ensures keys.Some? <==>
      document != [] && DistinctIds(document) && forall i :: 0 <= i < |document| ==> Usable(document[i], decode)
    ensures keys.Some? ==>
      && (forall kid :: kid in keys.value ==> Accepts(keys.value[kid].n, keys.value[kid].e))
      && Holds(keys.value, document, key => KeyOf(key, decode))
  {
    keys := LoadKeys(document, key => KeyOf(key, decode));
    if keys.Some? {
      forall kid | kid in keys.value ensures Accepts(keys.value[kid].n, keys.value[kid].e) {
        var i :| 0 <= i < |document| && document[i].kid == kid;
        assert KeyOf(document[i], decode) == Some(keys.value[kid]);
      }
    }
  }
}
