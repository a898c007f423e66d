/** The `.spbk` backup container: framing, key-derivation limits, and the way back. */
module Container {
  import opened Text

  newtype Byte = x: int | 0 <= x < 256

  type Bytes = seq<Byte>

  const NEWLINE: Byte := 10

  /** "SPBK1" and a line feed. */
  const MAGIC: Bytes := [83, 80, 66, 75, 49, 10]

  // ---------------------------------------------------------------- framing

  function Find(s: Bytes, b: Byte): (n: nat)
    ensures n <= |s| && b !in s[..n] && (n < |s| ==> s[n] == b)
  {
    if s == [] || s[0] == b then 0 else 1 + Find(s[1..], b)
  }

  function Framed(header: Bytes, payload: Bytes): Bytes { MAGIC + header + [NEWLINE] + payload }

  /** The header bytes and the payload, unless the magic or the line end is missing. */
  function Split(blob: Bytes): Option<(Bytes, Bytes)> {
    if !(MAGIC <= blob) then None
    else
      var rest := blob[|MAGIC|..];
      var n := Find(rest, NEWLINE);
      if n < |rest| then Some((rest[..n], rest[n + 1..])) else None
  }

  lemma {:induction false} FindIs(s: Bytes, b: Byte, n: nat)
    requires n < |s| && s[n] == b && forall i :: 0 <= i < n ==> s[i] != b
    ensures Find(s, b) == n
    decreases n
  {
    if n > 0 { FindIs(s[1..], b, n - 1); }
  }

  /** Splitting undoes framing exactly for headers without a line end, and nothing else splits. */
  lemma SplitIs(blob: Bytes, header: Bytes, payload: Bytes)
    ensures Split(blob) == Some((header, payload)) <==> blob == Framed(header, payload) && NEWLINE !in header
  {
    if blob == Framed(header, payload) && NEWLINE !in header {
      var rest := blob[|MAGIC|..];
      assert MAGIC <= blob;
      assert rest == header + [NEWLINE] + payload;
      assert rest[..|header|] == header && forall i :: 0 <= i < |header| ==> rest[i] == header[i];
      FindIs(rest, NEWLINE, |header|);
    }
    if Split(blob) == Some((header, payload)) {
      var rest := blob[|MAGIC|..];
      assert rest == header + [NEWLINE] + payload;
      assert blob == MAGIC + rest;
    }
  }

  // ---------------------------------------------------------------- the limits

  /** Bitwise conjunction of unbounded integers. */
  function And(a: nat, b: nat): nat {
    if a == 0 || b == 0 then 0 else 2 * And(a / 2, b / 2) + (a % 2) * (b % 2)
  }

  predicate IsPowerOfTwo(v: int) { v > 1 && And(v, v - 1) == 0 }

  function Pow2(k: nat): (r: nat)
    ensures r > 0
  {
    if k == 0 then 1 else 2 * Pow2(k - 1)
  }

  lemma BitSquared(b: nat)
    requires b == 0 || b == 1
    ensures b * b == b
  {
  }

  lemma {:induction false} AndSelf(a: nat)
    ensures And(a, a) == a
  {
    if a > 0 {
      AndSelf(a / 2);
      assert a == 2 * (a / 2) + a % 2;
      assert (a % 2) * (a % 2) == a % 2 by { BitSquared(a % 2); }
    }
  }

  lemma {:induction false} AndBelow(v: nat, k: nat)
    requires v == Pow2(k)
    ensures And(v, v - 1) == 0
  {
    if k > 0 {
      AndBelow(v / 2, k - 1);
      assert v > 1 ==> (v - 1) / 2 == v / 2 - 1;
    }
  }

  lemma OddKeepsBits(v: nat)
    requires v > 1 && v % 2 == 1
    ensures And(v, v - 1) > 0
  {
    AndSelf(v / 2);
    assert (v - 1) / 2 == v / 2;
  }

  lemma {:induction false} AndZeroIsPower(v: nat) returns (k: nat)
    requires v > 0 && And(v, v - 1) == 0
    ensures v == Pow2(k)
  {
    if v == 1 {
      k := 0;
    } else {
      if v % 2 == 1 { OddKeepsBits(v); }
      assert (v - 1) / 2 == v / 2 - 1;
      k := AndZeroIsPower(v / 2);
      k := k + 1;
    }
  }

  /** The bit test holds exactly for the powers of two greater than one. */
  lemma BitTestIsExact(v: int)
    ensures IsPowerOfTwo(v) <==> exists k: nat :: k >= 1 && v == Pow2(k)
  {
    if IsPowerOfTwo(v) {
      var k := AndZeroIsPower(v);
      assert k >= 1;
    }
    if k: nat :| k >= 1 && v == Pow2(k) { AndBelow(v, k); }
  }

  const MAX_N: nat := 1048576
  const MAX_R: nat := 32
  const MAX_P: nat := 16
  const MAX_SALT: nat := 1024
  const MAX_NONCE: nat := 64
  const MAX_MEMORY: nat := 268435456
  const MAX_MANIFEST: nat := 67108864

  /** The parameters the reader agrees to derive a key with. */
  predicate Acceptable(salt: Bytes, nonce: Bytes, n: int, r: int, p: int) {
    && IsPowerOfTwo(n) && n <= MAX_N
    && 1 <= r <= MAX_R && 1 <= p <= MAX_P
    && 128 * n * r <= MAX_MEMORY
    && 8 <= |salt| <= MAX_SALT && 1 <= |nonce| <= MAX_NONCE
  }

  /** The writer's parameters. */
  const N: nat := 32768
  const R: nat := 8
  const P: nat := 1

  lemma WriterIsAcceptable(salt: Bytes, nonce: Bytes)
    requires |salt| == 16 && |nonce| == 12
    ensures Acceptable(salt, nonce, N, R, P)
  {
    assert Pow2(3) == 8;
    assert Pow2(6) == 64;
    assert Pow2(9) == 512;
    assert Pow2(12) == 4096;
    assert Pow2(15) == N;
    AndBelow(N, 15);
  }

  // ---------------------------------------------------------------- the header

  datatype Float = Finite(whole: int, zero: bool) | Infinite | NotANumber

  datatype Value =
    | Null | Bool(b: bool) | Int(n: int) | Real(f: Float) | Str(s: string) | List(length: nat)
    | Obj(fields: map<string, Value>)

  /** The truth value of a decoded header entry. */
  predicate Truthy(v: Value) {
    match v
    case Null => false
    case Bool(b) => b
    case Int(n) => n != 0
    case Real(f) => f != Finite(0, true)
    case Str(s) => s != ""
    case List(n) => n > 0
    case Obj(fields) => fields != map[]
  }

  datatype Result<T> = Ok(value: T) | BadFormat | BadPassphrase | Uncaught

  /** The codecs around the container: every pair is a parameter. */
  datatype Codecs<!M> = Codecs(
    printManifest: M -> Bytes, readManifest: Bytes -> Option<M>,
    zip: Bytes -> Bytes, unzip: Bytes -> Option<(nat, Bytes)>,
    printHeader: Value -> Bytes, readHeader: Bytes -> Option<Value>,
    encode: Bytes -> string, decode: string -> Option<Bytes>,
    toInt: string -> Option<int>,
    derive: (string, Bytes, int, int, int) -> Bytes,
    seal: (Bytes, Bytes, Bytes, Bytes) -> Bytes,
    unseal: (Bytes, Bytes, Bytes, Bytes) -> Option<Bytes>)

  /** Each codec is undone by its partner, and a printed header stays on one line. */
  ghost predicate Lawful<M(!new)>(c: Codecs<M>) {
    && (forall m :: c.readManifest(c.printManifest(m)) == Some(m))
    && (forall b :: c.unzip(c.zip(b)) == Some((|b|, b)))
    && (forall h :: c.readHeader(c.printHeader(h)) == Some(h) && NEWLINE !in c.printHeader(h))
    && (forall b :: c.decode(c.encode(b)) == Some(b))
    && (forall k, n, b, a :: c.unseal(k, n, c.seal(k, n, b, a), a) == Some(b))
  }

  /** The header after the version check. */
  function Header<M>(c: Codecs<M>, blob: Bytes): Option<(Value, Bytes, Bytes)> {
    match Split(blob)
    case None => None
    case Some((bytes, payload)) =>
      match c.readHeader(bytes)
      case None => None
      case Some(h) =>
        if h.Obj? && "v" in h.fields && h.fields["v"].Int? && h.fields["v"].n <= 1
        then Some((h, bytes, payload)) else None
  }

  function Enc(h: Value): Value { if h.Obj? && "enc" in h.fields then h.fields["enc"] else Null }

  function BytesField<M>(c: Codecs<M>, enc: Value, name: string): Result<Bytes> {
    if !enc.Obj? || name !in enc.fields then BadFormat
    else if !enc.fields[name].Str? then Uncaught
    else
      match c.decode(enc.fields[name].s)
      case None => BadFormat
      case Some(b) => Ok(b)
  }

  function IntField<M>(c: Codecs<M>, enc: Value, name: string): Result<int> {
    if !enc.Obj? || name !in enc.fields then BadFormat
    else
      match enc.fields[name]
      case Int(n) => Ok(n)
      case Bool(b) => Ok(if b then 1 else 0)
      case Real(Finite(n, _)) => Ok(n)
      case Real(Infinite) => Uncaught
      case Str(s) => if c.toInt(s).Some? then Ok(c.toInt(s).value) else BadFormat
      case _ => BadFormat
  }

  datatype Params = Params(salt: Bytes, nonce: Bytes, n: int, r: int, p: int)

  /** The key-derivation parameters, read in the program's order and then checked. */
  function ReadParams<M>(c: Codecs<M>, enc: Value): Result<Params> {
    var salt := BytesField(c, enc, "salt");
    if !salt.Ok? then Failure(salt)
    else
      var nonce := BytesField(c, enc, "nonce");
      if !nonce.Ok? then Failure(nonce)
      else
        var n := IntField(c, enc, "n");
        if !n.Ok? then Failure(n)
        else
          var r := IntField(c, enc, "r");
          if !r.Ok? then Failure(r)
          else
            var p := IntField(c, enc, "p");
            if !p.Ok? then Failure(p)
            else if Acceptable(salt.value, nonce.value, n.value, r.value, p.value) then
              Ok(Params(salt.value, nonce.value, n.value, r.value, p.value))
            else BadFormat
  }

  function Failure<S, T>(r: Result<S>): Result<T>
    requires !r.Ok?
  {
    match r
    case BadFormat => BadFormat
    case BadPassphrase => BadPassphrase
    case Uncaught => Uncaught
  }

  // ---------------------------------------------------------------- writing and reading

  function PlainHeader(): Value { Obj(map["v" := Int(1), "enc" := Null]) }

  function EncHeader<M>(c: Codecs<M>, salt: Bytes, nonce: Bytes): Value {
    Obj(map["v" := Int(1), "enc" := Obj(map[
      "algo" := Str("AES-256-GCM"), "kdf" := Str("scrypt"), "n" := Int(N), "r" := Int(R), "p" := Int(P),
      "salt" := Str(c.encode(salt)), "nonce" := Str(c.encode(nonce))])])
  }

  predicate HasText(passphrase: Option<string>) { passphrase.Some? && passphrase.value != "" }

  function Write<M>(c: Codecs<M>, m: M, passphrase: Option<string>, salt: Bytes, nonce: Bytes): Bytes {
    var inner := c.zip(c.printManifest(m));
    if HasText(passphrase) then
      var header := c.printHeader(EncHeader(c, salt, nonce));
      Framed(header, c.seal(c.derive(passphrase.value, salt, N, R, P), nonce, inner, header))
    else Framed(c.printHeader(PlainHeader()), inner)
  }

  function Unpack<M>(c: Codecs<M>, raw: Bytes): Result<M> {
    match c.unzip(raw)
    case None => BadFormat
    case Some((declared, data)) =>
      if declared > MAX_MANIFEST || |data| > MAX_MANIFEST then BadFormat
      else
        match c.readManifest(data)
        case None => BadFormat
        case Some(m) => Ok(m)
  }

  /** The parameters with which a key is derived while reading, when one is. */
  function KeyRequest<M>(c: Codecs<M>, blob: Bytes, passphrase: Option<string>): Option<Params> {
    match Header(c, blob)
    case None => None
    case Some((h, bytes, payload)) =>
      if !Truthy(Enc(h)) || !HasText(passphrase) then None
      else
        match ReadParams(c, Enc(h))
        case Ok(p) => Some(p)
        case _ => None
  }

  function Read<M>(c: Codecs<M>, blob: Bytes, passphrase: Option<string>): Result<M> {
    match Header(c, blob)
    case None => BadFormat
    case Some((h, bytes, payload)) =>
      if !Truthy(Enc(h)) then Unpack(c, payload)
      else if !HasText(passphrase) then BadPassphrase
      else
        var params := ReadParams(c, Enc(h));
        if !params.Ok? then Failure(params)
        else
          var q := params.value;
          match c.unseal(c.derive(passphrase.value, q.salt, q.n, q.r, q.p), q.nonce, payload, bytes)
          case None => BadPassphrase
          case Some(inner) => Unpack(c, inner)
  }

  // ---------------------------------------------------------------- the theorems

  /** Whatever the file says, a key is only derived within the memory bound and with a real power of two. */
  lemma DerivationIsBounded<M>(c: Codecs<M>, blob: Bytes, passphrase: Option<string>)
    ensures var k := KeyRequest(c, blob, passphrase);
      k.Some? ==>
        && 128 * k.value.n * k.value.r <= MAX_MEMORY
        && (exists e: nat :: 1 <= e && k.value.n == Pow2(e))
        && 1 <= k.value.r <= MAX_R && 1 <= k.value.p <= MAX_P
        && 8 <= |k.value.salt| <= MAX_SALT && 1 <= |k.value.nonce| <= MAX_NONCE
  {
    hide IsPowerOfTwo, BytesField, IntField;
    var k := KeyRequest(c, blob, passphrase);
    if k.Some? { BitTestIsExact(k.value.n); }
  }

  /** Reading derives a key with the requested parameters and with no others: elsewhere `derive` makes no difference. */
  lemma ReadDerivesOnlyRequested<M>(c: Codecs<M>, d: Codecs<M>, blob: Bytes, passphrase: Option<string>)
    requires d == c.(derive := d.derive)
    requires var k := KeyRequest(c, blob, passphrase);
      k.Some? ==>
        var q := k.value;
        HasText(passphrase) &&
        c.derive(passphrase.value, q.salt, q.n, q.r, q.p) == d.derive(passphrase.value, q.salt, q.n, q.r, q.p)
    ensures Read(c, blob, passphrase) == Read(d, blob, passphrase)
  {
    hide Header, ReadParams, Unpack, Truthy, Enc;
    SameHeader(c, d, blob);
    forall e ensures ReadParams(c, e) == ReadParams(d, e) { SameParams(c, d, e); }
    forall raw ensures Unpack(c, raw) == Unpack(d, raw) { SameUnpack(c, d, raw); }
  }

  lemma SameHeader<M>(c: Codecs<M>, d: Codecs<M>, blob: Bytes)
    requires d == c.(derive := d.derive)
    ensures Header(c, blob) == Header(d, blob)
  {
    hide Split;
  }

  lemma SameParams<M>(c: Codecs<M>, d: Codecs<M>, enc: Value)
    requires d == c.(derive := d.derive)
    ensures ReadParams(c, enc) == ReadParams(d, enc)
  {
    hide Acceptable;
    forall name ensures BytesField(c, enc, name) == BytesField(d, enc, name) { }
    forall name ensures IntField(c, enc, name) == IntField(d, enc, name) { }
    hide BytesField, IntField;
  }

  lemma SameUnpack<M>(c: Codecs<M>, d: Codecs<M>, raw: Bytes)
    requires d == c.(derive := d.derive)
    ensures Unpack(c, raw) == Unpack(d, raw)
  {
  }

  lemma UnpackZipped<M(!new)>(c: Codecs<M>, m: M)
    requires Lawful(c)
    ensures Unpack(c, c.zip(c.printManifest(m))) == if |c.printManifest(m)| <= MAX_MANIFEST then Ok(m) else BadFormat
  {
  }

  lemma WrittenHeader<M(!new)>(c: Codecs<M>, h: Value, payload: Bytes)
    requires Lawful(c) && h.Obj? && "v" in h.fields && h.fields["v"] == Int(1)
    ensures Header(c, Framed(c.printHeader(h), payload)) == Some((h, c.printHeader(h), payload))
  {
    hide Split, Framed;
    SplitIs(Framed(c.printHeader(h), payload), c.printHeader(h), payload);
  }

  lemma PlainHeaderFacts()
    ensures var h := PlainHeader(); h.Obj? && "v" in h.fields && h.fields["v"] == Int(1) && Enc(h) == Null
  {
    assert |"v"| != |"enc"|;
  }

  lemma EncHeaderFacts<M>(c: Codecs<M>, salt: Bytes, nonce: Bytes)
    ensures var h := EncHeader(c, salt, nonce);
      && h.Obj? && "v" in h.fields && h.fields["v"] == Int(1)
      && Enc(h).Obj? && Truthy(Enc(h))
      && Enc(h).fields.Keys == {"algo", "kdf", "n", "r", "p", "salt", "nonce"}
      && Enc(h).fields["salt"] == Str(c.encode(salt)) && Enc(h).fields["nonce"] == Str(c.encode(nonce))
      && Enc(h).fields["n"] == Int(N) && Enc(h).fields["r"] == Int(R) && Enc(h).fields["p"] == Int(P)
  {
    assert |"v"| == 1 && |"enc"| == 3;
    assert "n"[0] == 'n' && "r"[0] == 'r' && "p"[0] == 'p';
    assert |"salt"| == 4 && |"nonce"| == 5 && |"algo"| == 4 && |"kdf"| == 3;
    assert "salt"[0] == 's' && "algo"[0] == 'a';
    var h := EncHeader(c, salt, nonce);
    assert "n" in Enc(h).fields;
  }

  lemma WrittenParams<M(!new)>(c: Codecs<M>, salt: Bytes, nonce: Bytes)
    requires Lawful(c) && |salt| == 16 && |nonce| == 12
    ensures ReadParams(c, Enc(EncHeader(c, salt, nonce))) == Ok(Params(salt, nonce, N, R, P))
  {
    hide Acceptable;
    EncHeaderFacts(c, salt, nonce);
    WriterIsAcceptable(salt, nonce);
    hide EncHeader, Enc;
  }

  /** Reading what was written gives the manifest back exactly when it is within the size the reader will inflate. */
  lemma ContainerRoundTrip<M(!new)>(c: Codecs<M>, m: M, passphrase: Option<string>, salt: Bytes, nonce: Bytes)
    requires Lawful(c) && |salt| == 16 && |nonce| == 12
    ensures Read(c, Write(c, m, passphrase, salt, nonce), passphrase)
      == if |c.printManifest(m)| <= MAX_MANIFEST then Ok(m) else BadFormat
  {
    hide Header, Framed, ReadParams, EncHeader, PlainHeader, Truthy, Enc, Unpack;
    var inner := c.zip(c.printManifest(m));
    UnpackZipped(c, m);
    if HasText(passphrase) {
      var h := EncHeader(c, salt, nonce);
      var bytes := c.printHeader(h);
      var key := c.derive(passphrase.value, salt, N, R, P);
      EncHeaderFacts(c, salt, nonce);
      WrittenHeader(c, h, c.seal(key, nonce, inner, bytes));
      WrittenParams(c, salt, nonce);
    } else {
      PlainHeaderFacts();
      NullIsFalsy();
      WrittenHeader(c, PlainHeader(), inner);
    }
  }

  lemma NullIsFalsy()
    ensures !Truthy(Null)
  {
  }

  /** A plaintext backup ignores the passphrase; an encrypted one asks for it before anything is derived. */
  lemma PassphraseIsAskedFor<M(!new)>(c: Codecs<M>, m: M, passphrase: Option<string>, salt: Bytes, nonce: Bytes,
    given: Option<string>)
    requires Lawful(c) && |salt| == 16 && |nonce| == 12
    ensures var blob := Write(c, m, passphrase, salt, nonce);
      && (!HasText(passphrase) ==> Read(c, blob, given) == Read(c, blob, passphrase))
      && (HasText(passphrase) && !HasText(given)
        ==> Read(c, blob, given) == BadPassphrase && KeyRequest(c, blob, given) == None)
  {
    hide Header, Framed, ReadParams, EncHeader, PlainHeader, Truthy, Enc, Unpack;
    var inner := c.zip(c.printManifest(m));
    if HasText(passphrase) {
      var h := EncHeader(c, salt, nonce);
      EncHeaderFacts(c, salt, nonce);
      WrittenHeader(c, h, c.seal(c.derive(passphrase.value, salt, N, R, P), nonce, inner, c.printHeader(h)));
    } else {
      PlainHeaderFacts();
      NullIsFalsy();
      WrittenHeader(c, PlainHeader(), inner);
    }
  }
}
