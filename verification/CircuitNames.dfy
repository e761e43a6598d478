/** `resolution.rs`: the names of the circuits that a document needs. */
module CircuitNames {
  import opened Wrappers
  import opened Text
  import Registry

  datatype Hash = Sha1 | Sha224 | Sha256 | Sha384 | Sha512

  datatype Curve =
    | NistP192 | NistP224 | NistP256 | NistP384 | NistP521
    | Brainpool160r1 | Brainpool160t1 | Brainpool192r1 | Brainpool192t1
    | Brainpool224r1 | Brainpool224t1 | Brainpool256r1 | Brainpool256t1
    | Brainpool320r1 | Brainpool320t1 | Brainpool384r1 | Brainpool384t1
    | Brainpool512r1 | Brainpool512t1

  datatype SignatureKey = Ecdsa(curve: Curve) | RsaPkcs(keyBits: nat) | RsaPss(keyBits: nat)

  /** The bucket and the key size are `u32` in the source; nothing here needs a bound on them. */
  datatype Spec = Spec(tbsBucket: nat, key: SignatureKey, hash: Hash)

  /** A circuit by its role. */
  datatype Circuit = Dsc(spec: Spec) | IdData(spec: Spec) | Integrity(sa: Hash, dg: Hash)

  function HashSuffix(h: Hash): string {
    match h
    case Sha1 => "sha1"
    case Sha224 => "sha224"
    case Sha256 => "sha256"
    case Sha384 => "sha384"
    case Sha512 => "sha512"
  }

  function CurveSuffix(c: Curve): string {
    match c
    case NistP192 => "nist_p192"
    case NistP224 => "nist_p224"
    case NistP256 => "nist_p256"
    case NistP384 => "nist_p384"
    case NistP521 => "nist_p521"
    case Brainpool160r1 => "brainpool_160r1"
    case Brainpool160t1 => "brainpool_160t1"
    case Brainpool192r1 => "brainpool_192r1"
    case Brainpool192t1 => "brainpool_192t1"
    case Brainpool224r1 => "brainpool_224r1"
    case Brainpool224t1 => "brainpool_224t1"
    case Brainpool256r1 => "brainpool_256r1"
    case Brainpool256t1 => "brainpool_256t1"
    case Brainpool320r1 => "brainpool_320r1"
    case Brainpool320t1 => "brainpool_320t1"
    case Brainpool384r1 => "brainpool_384r1"
    case Brainpool384t1 => "brainpool_384t1"
    case Brainpool512r1 => "brainpool_512r1"
    case Brainpool512t1 => "brainpool_512t1"
  }

  function KeySuffix(key: SignatureKey): string {
    match key
    case Ecdsa(curve) => "ecdsa_" + CurveSuffix(curve)
    case RsaPkcs(bits) => "rsa_pkcs_" + Decimal(bits)
    case RsaPss(bits) => "rsa_pss_" + Decimal(bits)
  }

  function SpecName(prefix: string, spec: Spec): string {
    prefix + (Decimal(spec.tbsBucket) + "_" + (KeySuffix(spec.key) + "_" + HashSuffix(spec.hash)))
  }

  function Name(c: Circuit): string {
    match c
    case Dsc(spec) => SpecName("sig_check_dsc_tbs_", spec)
    case IdData(spec) => SpecName("sig_check_id_data_tbs_", spec)
    case Integrity(sa, dg) => "data_check_integrity_sa_" + (HashSuffix(sa) + ("_dg_" + HashSuffix(dg)))
  }

  // ----- reading a name

  /** The pieces between underscores. */
  function Split(s: string): (pieces: seq<string>)
    ensures pieces != []
  {
    if s == "" then [""] else Push(s[0], Split(s[1..]))
  }

  /** The pieces of a text with one more character in front. */
  function Push(c: char, pieces: seq<string>): (r: seq<string>)
    requires pieces != []
    ensures r != []
  {
    if c == '_' then [""] + pieces else [[c] + pieces[0]] + pieces[1..]
  }

  lemma PushUnderscore(pieces: seq<string>)
    requires pieces != []
    ensures Push('_', pieces) == [""] + pieces
  {
  }

  lemma PushConcat(c: char, first: seq<string>, others: seq<string>)
    requires first != []
    ensures Push(c, first + others) == Push(c, first) + others
  {
    if c != '_' {
      assert (first + others)[1..] == first[1..] + others;
    }
  }

  lemma {:induction false} SplitWhole(s: string)
    requires '_' !in s
    ensures Split(s) == [s]
  {
    if s != "" {
      SplitWhole(s[1..]);
      assert s == [s[0]] + s[1..];
    }
  }

  lemma {:induction false} SplitConcat(a: string, b: string)
    ensures Split(a + "_" + b) == Split(a) + Split(b)
  {
    hide Push;
    var s := a + "_" + b;
    if a == "" {
      assert s[1..] == b;
      PushUnderscore(Split(b));
    } else {
      SplitConcat(a[1..], b);
      assert s[1..] == a[1..] + "_" + b;
      PushConcat(a[0], Split(a[1..]), Split(b));
    }
  }

  /** A prefix that ends with an underscore. */
  lemma SplitPrefix(a: string, b: string)
    ensures Split((a + "_") + b) == Split(a) + Split(b)
  {
    SplitConcat(a, b);
  }

  /** The hash, the curve or the key that the pieces can only stand for, if they stand for any. */
  function GuessHash(piece: string): Hash {
    if |piece| < 6 then Sha1
    else if piece[3] == '2' then (if piece[4] == '2' then Sha224 else Sha256)
    else if piece[3] == '3' then Sha384
    else Sha512
  }

  predicate IsNist(c: Curve) {
    c.NistP192? || c.NistP224? || c.NistP256? || c.NistP384? || c.NistP521?
  }

  /** The two pieces of a curve's suffix. */
  function CurveFamily(c: Curve): string {
    if IsNist(c) then "nist" else "brainpool"
  }

  function CurveSize(c: Curve): string {
    match c
    case NistP192 => "p192"
    case NistP224 => "p224"
    case NistP256 => "p256"
    case NistP384 => "p384"
    case NistP521 => "p521"
    case Brainpool160r1 => "160r1"
    case Brainpool160t1 => "160t1"
    case Brainpool192r1 => "192r1"
    case Brainpool192t1 => "192t1"
    case Brainpool224r1 => "224r1"
    case Brainpool224t1 => "224t1"
    case Brainpool256r1 => "256r1"
    case Brainpool256t1 => "256t1"
    case Brainpool320r1 => "320r1"
    case Brainpool320t1 => "320t1"
    case Brainpool384r1 => "384r1"
    case Brainpool384t1 => "384t1"
    case Brainpool512r1 => "512r1"
    case Brainpool512t1 => "512t1"
  }

  /** By the first letter of the family and the characters of the size. */
  function GuessCurve(family: string, size: string): Curve {
    if family != "" && family[0] == 'n' then
      if |size| < 3 || size[1] == '1' then NistP192
      else if size[1] == '2' then (if size[2] == '2' then NistP224 else NistP256)
      else if size[1] == '3' then NistP384
      else NistP521
    else if |size| < 4 then Brainpool160r1
    else
      var r := size[3] == 'r';
      if size[0] == '1' then
        if size[1] == '6' then (if r then Brainpool160r1 else Brainpool160t1)
        else (if r then Brainpool192r1 else Brainpool192t1)
      else if size[0] == '2' then
        if size[1] == '2' then (if r then Brainpool224r1 else Brainpool224t1)
        else (if r then Brainpool256r1 else Brainpool256t1)
      else if size[0] == '3' then
        if size[1] == '2' then (if r then Brainpool320r1 else Brainpool320t1)
        else (if r then Brainpool384r1 else Brainpool384t1)
      else (if r then Brainpool512r1 else Brainpool512t1)
  }

  function GuessNumber(piece: string): nat {
    if AllDigits(piece) then DecimalValue(piece) else 0
  }

  function GuessSpec(pieces: seq<string>): Spec
    requires |pieces| == 5
  {
    var key :=
      if |pieces[1]| == 5 then Ecdsa(GuessCurve(pieces[2], pieces[3]))
      else if |pieces[2]| == 4 then RsaPkcs(GuessNumber(pieces[3]))
      else RsaPss(GuessNumber(pieces[3]));
    Spec(GuessNumber(pieces[0]), key, GuessHash(pieces[4]))
  }

  function Guess(pieces: seq<string>): Option<Circuit> {
    if |pieces| == 9 then Some(Dsc(GuessSpec(pieces[4..])))
    else if |pieces| == 10 then Some(IdData(GuessSpec(pieces[5..])))
    else if |pieces| == 7 then Some(Integrity(GuessHash(pieces[4]), GuessHash(pieces[6])))
    else None
  }

  /** Reads a name: the guess, if it really has this name. */
  function Parse(name: string): Option<Circuit> {
    var guess := Guess(Split(name));
    if guess.Some? && Name(guess.value) == name then guess else None
  }

  lemma GuessHashInverts(h: Hash)
    ensures '_' !in HashSuffix(h) && GuessHash(HashSuffix(h)) == h
  {
  }

  lemma GuessCurveInverts(c: Curve)
    ensures GuessCurve(CurveFamily(c), CurveSize(c)) == c
  {
  }

  lemma SplitCurve(c: Curve)
    ensures Split(CurveSuffix(c)) == [CurveFamily(c), CurveSize(c)]
  {
    CurvePieces(c);
    SuffixPieces(c);
    hide CurveSuffix, CurveFamily, CurveSize;
    SplitWhole(CurveFamily(c));
    SplitWhole(CurveSize(c));
    SplitConcat(CurveFamily(c), CurveSize(c));
    hide Split;
  }

  lemma CurvePieces(c: Curve)
    ensures '_' !in CurveFamily(c) && '_' !in CurveSize(c)
  {
  }

  lemma SuffixPieces(c: Curve)
    ensures CurveSuffix(c) == CurveFamily(c) + "_" + CurveSize(c)
  {
    if IsNist(c) {
      NistPieces(c);
    } else if IsShort(c) {
      ShortPieces(c);
    } else {
      LongPieces(c);
    }
    hide CurveSuffix, CurveFamily, CurveSize;
  }

  predicate IsShort(c: Curve) {
    || c.Brainpool160r1? || c.Brainpool160t1? || c.Brainpool192r1? || c.Brainpool192t1?
    || c.Brainpool224r1? || c.Brainpool224t1?
  }

  lemma NistPieces(c: Curve)
    requires IsNist(c)
    ensures CurveSuffix(c) == CurveFamily(c) + "_" + CurveSize(c)
  {
  }

  lemma ShortPieces(c: Curve)
    requires IsShort(c)
    ensures CurveSuffix(c) == CurveFamily(c) + "_" + CurveSize(c)
  {
  }

  lemma LongPieces(c: Curve)
    requires !IsNist(c) && !IsShort(c)
    ensures CurveSuffix(c) == CurveFamily(c) + "_" + CurveSize(c)
  {
  }

  lemma GuessNumberInverts(n: nat)
    ensures '_' !in Decimal(n) && GuessNumber(Decimal(n)) == n
  {
    DecimalInverts(n);
  }

  /** The three pieces of a key. */
  function KeyPieces(key: SignatureKey): (pieces: seq<string>)
    ensures |pieces| == 3
  {
    match key
    case Ecdsa(curve) => ["ecdsa", CurveFamily(curve), CurveSize(curve)]
    case RsaPkcs(bits) => ["rsa", "pkcs", Decimal(bits)]
    case RsaPss(bits) => ["rsa", "pss", Decimal(bits)]
  }

  lemma SplitKey(key: SignatureKey)
    ensures Split(KeySuffix(key)) == KeyPieces(key)
  {
    hide CurveSuffix, CurveFamily, CurveSize, Split, Decimal;
    match key
    case Ecdsa(curve) =>
      SplitCurve(curve);
      SplitWhole("ecdsa");
      SplitPrefix("ecdsa", CurveSuffix(curve));
      assert "ecdsa" + "_" == "ecdsa_";
    case RsaPkcs(bits) =>
      GuessNumberInverts(bits);
      SplitRsa("pkcs", Decimal(bits));
      assert "rsa" + "_" + "pkcs" + "_" == "rsa_pkcs_";
    case RsaPss(bits) =>
      GuessNumberInverts(bits);
      SplitRsa("pss", Decimal(bits));
      assert "rsa" + "_" + "pss" + "_" == "rsa_pss_";
  }

  lemma SplitRsa(scheme: string, bits: string)
    requires '_' !in scheme && '_' !in bits
    ensures Split("rsa" + "_" + scheme + "_" + bits) == ["rsa", scheme, bits]
  {
    SplitWhole("rsa");
    SplitWhole(scheme);
    SplitWhole(bits);
    SplitConcat("rsa", scheme);
    SplitConcat("rsa" + "_" + scheme, bits);
  }

  function SpecPieces(spec: Spec): (pieces: seq<string>)
    ensures |pieces| == 5
  {
    [Decimal(spec.tbsBucket)] + KeyPieces(spec.key) + [HashSuffix(spec.hash)]
  }

  lemma GuessKeyInverts(key: SignatureKey, bucket: nat, hash: Hash)
    ensures GuessSpec(SpecPieces(Spec(bucket, key, hash))) == Spec(bucket, key, hash)
  {
    hide GuessCurve, GuessHash, GuessNumber, CurveFamily, CurveSize, HashSuffix, Decimal;
    GuessNumberInverts(bucket);
    GuessHashInverts(hash);
    match key
    case Ecdsa(curve) => GuessCurveInverts(curve);
    case RsaPkcs(bits) => GuessNumberInverts(bits);
    case RsaPss(bits) => GuessNumberInverts(bits);
  }

  lemma SplitSpec(prefix: string, spec: Spec)
    ensures Split(SpecName(prefix + "_", spec)) == Split(prefix) + SpecPieces(spec)
  {
    hide Split, KeySuffix, HashSuffix, Decimal, KeyPieces;
    var bucket, key, hash := Decimal(spec.tbsBucket), KeySuffix(spec.key), HashSuffix(spec.hash);
    GuessNumberInverts(spec.tbsBucket);
    GuessHashInverts(spec.hash);
    SplitWhole(hash);
    SplitKey(spec.key);
    SplitWhole(bucket);
    SplitConcat(key, hash);
    SplitConcat(bucket, key + "_" + hash);
    SplitPrefix(prefix, bucket + "_" + (key + "_" + hash));
  }

  /** Four words joined by underscores. */
  lemma SplitFour(a: string, b: string, c: string, d: string)
    requires '_' !in a && '_' !in b && '_' !in c && '_' !in d
    ensures Split(a + "_" + b + "_" + c + "_" + d) == [a, b, c, d]
  {
    hide Split;
    SplitWhole(a);
    SplitWhole(b);
    SplitWhole(c);
    SplitWhole(d);
    SplitConcat(a, b);
    SplitConcat(a + "_" + b, c);
    SplitConcat(a + "_" + b + "_" + c, d);
  }

  lemma SplitDsc()
    ensures "sig_check_dsc_tbs_" == "sig_check_dsc_tbs" + "_" && |Split("sig_check_dsc_tbs")| == 4
  {
    hide Split;
    SplitFour("sig", "check", "dsc", "tbs");
    assert "sig" + "_" + "check" + "_" + "dsc" + "_" + "tbs" == "sig_check_dsc_tbs";
  }

  lemma SplitDataCheck()
    ensures "data_check_integrity_sa_" == "data_check_integrity_sa" + "_" && |Split("data_check_integrity_sa")| == 4
  {
    hide Split;
    SplitFour("data", "check", "integrity", "sa");
    assert "data" + "_" + "check" + "_" + "integrity" + "_" + "sa" == "data_check_integrity_sa";
  }

  lemma SplitIdData()
    ensures "sig_check_id_data_tbs_" == "sig_check_id_data_tbs" + "_" && |Split("sig_check_id_data_tbs")| == 5
  {
    hide Split;
    SplitFour("sig", "check", "id", "data");
    SplitWhole("tbs");
    SplitConcat("sig" + "_" + "check" + "_" + "id" + "_" + "data", "tbs");
    assert "sig" + "_" + "check" + "_" + "id" + "_" + "data" + "_" + "tbs" == "sig_check_id_data_tbs";
  }

  lemma GuessInverts(c: Circuit)
    ensures Guess(Split(Name(c))) == Some(c)
  {
    hide Split, SpecName, SpecPieces, GuessSpec, GuessHash, HashSuffix;
    match c
    case Dsc(spec) =>
      SplitDsc();
      SplitSpec("sig_check_dsc_tbs", spec);
      GuessKeyInverts(spec.key, spec.tbsBucket, spec.hash);
      assert Split(Name(c))[4..] == SpecPieces(spec);
    case IdData(spec) =>
      SplitIdData();
      SplitSpec("sig_check_id_data_tbs", spec);
      GuessKeyInverts(spec.key, spec.tbsBucket, spec.hash);
      assert Split(Name(c))[5..] == SpecPieces(spec);
    case Integrity(sa, dg) =>
      GuessHashInverts(sa);
      GuessHashInverts(dg);
      SplitIntegrity(HashSuffix(sa), HashSuffix(dg));
  }

  lemma SplitIntegrity(sa: string, dg: string)
    requires '_' !in sa && '_' !in dg
    ensures var pieces := Split("data_check_integrity_sa_" + (sa + ("_dg_" + dg)));
            |pieces| == 7 && pieces[4] == sa && pieces[6] == dg
  {
    hide Split;
    SplitDg(sa, dg);
    SplitDataCheck();
    SplitPrefix("data_check_integrity_sa", sa + ("_dg_" + dg));
  }

  lemma SplitDg(sa: string, dg: string)
    requires '_' !in sa && '_' !in dg
    ensures Split(sa + ("_dg_" + dg)) == [sa, "dg", dg]
  {
    hide Split;
    SplitWhole(sa);
    SplitWhole("dg");
    SplitWhole(dg);
    SplitConcat(sa, "dg");
    SplitConcat(sa + "_" + "dg", dg);
    assert sa + "_" + "dg" + "_" + dg == sa + ("_dg_" + dg);
  }

  /** Names are an unambiguous code: role, bucket, key and hash can be read back from a name. */
  lemma ParseIff(name: string, c: Circuit)
    ensures Parse(name) == Some(c) <==> name == Name(c)
  {
    if name == Name(c) {
      GuessInverts(c);
    }
  }

  lemma NamesAreInjective(c: Circuit, d: Circuit)
    ensures Name(c) == Name(d) <==> c == d
  {
    ParseIff(Name(c), c);
    ParseIff(Name(d), d);
  }

  /** One name of each role, piece by piece. */
  lemma NamesByPiece()
    ensures Name(Dsc(Spec(1000, Ecdsa(NistP256), Sha256)))
         == "sig_check_dsc_tbs_" + ("1000" + "_" + "ecdsa_nist_p256" + "_" + "sha256")
    ensures Name(IdData(Spec(700, RsaPss(2048), Sha384)))
         == "sig_check_id_data_tbs_" + ("700" + "_" + "rsa_pss_2048" + "_" + "sha384")
    ensures Name(Integrity(Sha384, Sha256)) == "data_check_integrity_sa_" + "sha384" + "_dg_" + "sha256"
  {
    NumbersByDigit();
    KeysByPiece();
    Assembled("sig_check_dsc_tbs_", Spec(1000, Ecdsa(NistP256), Sha256), "1000", "ecdsa_nist_p256", "sha256");
    Assembled("sig_check_id_data_tbs_", Spec(700, RsaPss(2048), Sha384), "700", "rsa_pss_2048", "sha384");
    hide Decimal, KeySuffix, SpecName;
    assert "data_check_integrity_sa_" + ("sha384" + ("_dg_" + "sha256"))
        == "data_check_integrity_sa_" + "sha384" + "_dg_" + "sha256";
  }

  lemma Assembled(prefix: string, spec: Spec, bucket: string, key: string, hash: string)
    requires Decimal(spec.tbsBucket) == bucket && KeySuffix(spec.key) == key && HashSuffix(spec.hash) == hash
    ensures SpecName(prefix, spec) == prefix + (bucket + "_" + key + "_" + hash)
  {
    hide Decimal, KeySuffix, HashSuffix;
    assert bucket + "_" + (key + "_" + hash) == bucket + "_" + key + "_" + hash;
  }

  lemma KeysByPiece()
    ensures KeySuffix(Ecdsa(NistP256)) == "ecdsa_nist_p256" && KeySuffix(RsaPss(2048)) == "rsa_pss_2048"
  {
    NumbersByDigit();
    hide Decimal;
  }

  lemma NumbersByDigit()
    ensures Decimal(1000) == "1000" && Decimal(700) == "700" && Decimal(2048) == "2048"
  {
    assert Decimal(1) == "1" && Decimal(10) == "10" && Decimal(100) == "100";
    assert Decimal(7) == "7" && Decimal(70) == "70";
    assert Decimal(2) == "2" && Decimal(20) == "20" && Decimal(204) == "204";
  }

  // ----- resolving a document's circuits

  datatype DocumentCircuitContext = DocumentCircuitContext(dsc: Spec, idData: Spec, dgHash: Hash, outerCircuit: string)

  datatype ResolvedDocumentCircuits = ResolvedDocumentCircuits(
    dscName: string, idDataName: string, integrityName: string, outerName: string)

  method ResolveDocumentCircuits(manifest: Registry.Manifest, context: DocumentCircuitContext)
    returns (r: Result<ResolvedDocumentCircuits>)
    ensures r.Ok? ==>
              && Parse(r.value.dscName) == Some(Dsc(context.dsc))
              && Parse(r.value.idDataName) == Some(IdData(context.idData))
              && Parse(r.value.integrityName) == Some(Integrity(context.idData.hash, context.dgHash))
              && r.value.outerName == context.outerCircuit
    ensures r.Ok?
       <==> && Name(Dsc(context.dsc)) in manifest.circuits
            && Name(IdData(context.idData)) in manifest.circuits
            && Name(Integrity(context.idData.hash, context.dgHash)) in manifest.circuits
            && context.outerCircuit in manifest.circuits
  {
    hide Name, Parse;
    var dsc, idData := Name(Dsc(context.dsc)), Name(IdData(context.idData));
    var integrity := Name(Integrity(context.idData.hash, context.dgHash));
    var names := [dsc, idData, integrity, context.outerCircuit];
    for i := 0 to |names|
      invariant forall j :: 0 <= j < i ==> names[j] in manifest.circuits
    {
      if names[i] !in manifest.circuits {
        return Err;
      }
    }
    assert names[0] == dsc && names[1] == idData && names[2] == integrity && names[3] == context.outerCircuit;
    ParseIff(dsc, Dsc(context.dsc));
    ParseIff(idData, IdData(context.idData));
    ParseIff(integrity, Integrity(context.idData.hash, context.dgHash));
    return Ok(ResolvedDocumentCircuits(dsc, idData, integrity, context.outerCircuit));
  }
}
