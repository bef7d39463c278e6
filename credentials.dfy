/**
 * The credential loader (loadCertsFromEnv): the CA certificate, the client
 * certificate and the client key, read from the environment either
 * verbatim (Heroku style) or as quoted-or-bare base64 text.
 */
module Credentials {
  import opened Wrappers
  import opened GoBytes
  import opened GoStrings
  import Base64

  /** The process environment; os.Getenv gives "" for a variable that is not set. */
  type Env = map<string, string>

  function Getenv(env: Env, name: string): (v: string)
    ensures name !in env ==> v == ""
  {
    if name in env then env[name] else ""
  }

  const HerokuVar := "HEROKU"
  const TrustedCertVar := "KAFKA_TRUSTED_CERT"
  const ClientCertVar := "KAFKA_CLIENT_CERT"
  const ClientKeyVar := "KAFKA_CLIENT_CERT_KEY"

  const NotSetMessage := "Must set KAFKA_CLIENT_CERT, KAFKA_CLIENT_CERT_KEY, KAFKA_TRUSTED_CERT env"

  /** The three parts of the TLS client identity. */
  datatype Role = CA | Cert | Key

  /** The environment variable each part is read from. */
  function VarOf(role: Role): string {
    match role
    case CA => TrustedCertVar
    case Cert => ClientCertVar
    case Key => ClientKeyVar
  }

  /** The triple loadCertsFromEnv returns, in its order (CA, cert, key). */
  datatype CredentialSet = CredentialSet(ca: seq<byte>, cert: seq<byte>, key: seq<byte>) {
    function Of(role: Role): seq<byte> {
      match role
      case CA => ca
      case Cert => cert
      case Key => key
    }
  }

  /** Why loading stops the program: a blank value, or base64 that does not decode. */
  datatype LoadError = NotSet | CorruptBase64(role: Role, offset: nat)

  /** What log.Fatal writes for each failure. */
  function LoadErrorMessage(e: LoadError): (m: string)
    ensures e.NotSet? ==> m == NotSetMessage
    ensures e.CorruptBase64? ==> (
      && HasPrefix(m, Base64.CorruptInputPrefix)
      && var digits := m[|Base64.CorruptInputPrefix|..];
      && (forall i :: 0 <= i < |digits| ==> '0' <= digits[i] <= '9')
      && DigitsValue(digits) == e.offset)
  {
    match e
    case NotSet => NotSetMessage
    case CorruptBase64(_, offset) => Base64.CorruptInputMessage(offset)
  }

  /**
   * The quote clean-up of an encoded value: TrimPrefix then TrimSuffix of
   * one double quote. At most one quote goes from each end, nothing else
   * changes, a leading quote is always removed, and a trailing one is
   * removed when something is left after the leading one went.
   */
  function TrimQuotes(s: string): (r: string)
    ensures s == r || s == "\"" + r || s == r + "\"" || s == "\"" + r + "\""
    ensures |s| > 0 && s[0] == '"' ==> s == "\"" + r || s == "\"" + r + "\""
    ensures |s| > 1 && s[|s| - 1] == '"' ==> s == r + "\"" || s == "\"" + r + "\""
    ensures |s| > 1 && s[0] == '"' && s[|s| - 1] == '"' ==> s == "\"" + r + "\""
    ensures |s| - 2 <= |r| <= |s|
  {
    TrimSuffix(TrimPrefix(s, "\""), "\"")
  }

  /** A value with no quote at either end is left alone, so trimming it twice is trimming it once. */
  lemma TrimQuotesUnquoted(s: string)
    requires s == [] || (s[0] != '"' && s[|s| - 1] != '"')
    ensures TrimQuotes(s) == s
    ensures TrimQuotes(TrimQuotes(s)) == TrimQuotes(s)
  {
  }

  /** In general trimming is not idempotent: only one quote goes from each end. */
  lemma TrimQuotesNotIdempotent()
    ensures TrimQuotes("\"\"x\"\"") == "\"x\""
    ensures TrimQuotes(TrimQuotes("\"\"x\"\"")) == "x"
  {
    assert HasPrefix("\"\"x\"\"", "\"");
    assert HasSuffix("\"x\"\"", "\"");
    assert HasPrefix("\"x\"", "\"");
    assert HasSuffix("x\"", "\"");
  }

  /** The values that trim to nothing: the empty string, one quote and two quotes. */
  lemma TrimQuotesEmpty(s: string)
    ensures TrimQuotes(s) == "" <==> s == "" || s == "\"" || s == "\"\""
  {
    var r := TrimQuotes(s);
    if r == "" {
      assert "\"" + r == r + "\"" == "\"" && "\"" + r + "\"" == "\"\"";
    }
    if s == "\"" {
      assert HasPrefix(s, "\"");
    } else if s == "\"\"" {
      assert HasPrefix(s, "\"") && s[1..] == "\"" && HasSuffix(s[1..], "\"");
    }
  }

  predicate RawMode(env: Env) {
    Getenv(env, HerokuVar) != ""
  }

  /** The text that encoded mode decodes for a part: its variable with quotes trimmed. */
  function Encoded(env: Env, role: Role): string {
    TrimQuotes(Getenv(env, VarOf(role)))
  }

  /** Every part has a non-blank trimmed value. */
  predicate AllSet(env: Env) {
    Encoded(env, Cert) != "" && Encoded(env, Key) != "" && Encoded(env, CA) != ""
  }

  /** Every part's trimmed value is well-formed base64. */
  predicate AllDecode(env: Env) {
    DecodePart(env, Cert).Ok? && DecodePart(env, Key).Ok? && DecodePart(env, CA).Ok?
  }

  /** Every part decoded before `role`, in the order cert, key, CA, is well-formed. */
  predicate DecodedBefore(env: Env, role: Role) {
    match role
    case Cert => true
    case Key => DecodePart(env, Cert).Ok?
    case CA => DecodePart(env, Cert).Ok? && DecodePart(env, Key).Ok?
  }

  /**
   * The decoding half of encoded mode, given what decoding each part gave:
   * cert, key and CA are taken in that order and the first failure wins.
   */
  function FirstFailure(cert: Result<seq<byte>, nat>, key: Result<seq<byte>, nat>, ca: Result<seq<byte>, nat>)
    : (r: Result<CredentialSet, LoadError>)
    ensures r.Ok? <==> cert.Ok? && key.Ok? && ca.Ok?
    ensures r.Ok? ==> r.value == CredentialSet(ca.value, cert.value, key.value)
    ensures r.Err? ==> r.error.CorruptBase64?
    ensures r.Err? && r.error.role == Cert ==> cert == Err(r.error.offset)
    ensures r.Err? && r.error.role == Key ==> cert.Ok? && key == Err(r.error.offset)
    ensures r.Err? && r.error.role == CA ==> cert.Ok? && key.Ok? && ca == Err(r.error.offset)
  {
    match cert
    case Err(k) => Err(CorruptBase64(Cert, k))
    case Ok(crt) =>
      match key
      case Err(k) => Err(CorruptBase64(Key, k))
      case Ok(ky) =>
        match ca
        case Err(k) => Err(CorruptBase64(CA, k))
        case Ok(c) => Ok(CredentialSet(c, crt, ky))
  }

  /** What decoding a part's trimmed value gives. */
  function DecodePart(env: Env, role: Role): Result<seq<byte>, nat> {
    Base64.Decode(Encoded(env, role))
  }

  /**
   * loadCertsFromEnv. In raw mode the three values are taken verbatim as
   * bytes, without any check. In encoded mode a blank trimmed value fails
   * before anything is decoded; otherwise the parts are decoded.
   */
  function LoadCerts(env: Env): (r: Result<CredentialSet, LoadError>)
    ensures RawMode(env) ==> r.Ok?
    ensures !RawMode(env) ==> (r == Err(NotSet) <==> !AllSet(env))
  {
    if RawMode(env) then
      Ok(CredentialSet(Bytes(Getenv(env, TrustedCertVar)), Bytes(Getenv(env, ClientCertVar)), Bytes(Getenv(env, ClientKeyVar))))
    else if !AllSet(env) then
      Err(NotSet)
    else
      FirstFailure(DecodePart(env, Cert), DecodePart(env, Key), DecodePart(env, CA))
  }

  /** Encoded mode succeeds exactly when every part is set and decodes, and then holds the decoded bytes. */
  lemma EncodedLoad(env: Env)
    requires !RawMode(env)
    ensures LoadCerts(env).Ok? <==> AllSet(env) && AllDecode(env)
    ensures LoadCerts(env).Ok? ==> forall role :: DecodePart(env, role) == Ok(LoadCerts(env).value.Of(role))
  {
    if AllSet(env) {
      var cert, key, ca := DecodePart(env, Cert), DecodePart(env, Key), DecodePart(env, CA);
      var r := FirstFailure(cert, key, ca);
      assert LoadCerts(env) == r;
      if r.Ok? {
        forall role ensures DecodePart(env, role) == Ok(r.value.Of(role)) {
          match role
          case Cert => assert cert == Ok(r.value.cert);
          case Key => assert key == Ok(r.value.key);
          case CA => assert ca == Ok(r.value.ca);
        }
      }
    }
  }

  /** A decoding failure is reported only once every part is set, and names the first part, in decoding order, that fails. */
  lemma FirstCorruptPart(env: Env)
    requires LoadCerts(env).Err? && LoadCerts(env).error.CorruptBase64?
    ensures !RawMode(env) && AllSet(env)
    ensures var e := LoadCerts(env).error;
      DecodePart(env, e.role) == Err(e.offset) && DecodedBefore(env, e.role)
  {
    assert !RawMode(env);
    assert AllSet(env);
    var r := FirstFailure(DecodePart(env, Cert), DecodePart(env, Key), DecodePart(env, CA));
    assert LoadCerts(env) == r;
  }

  /** In encoded mode, canonical base64 values are cleaned and decoded exactly: re-encoding gives each value back. */
  lemma LoadedReencodes(env: Env, role: Role)
    requires !RawMode(env) && LoadCerts(env).Ok? && Base64.PadBitsZero(Encoded(env, role))
    ensures Base64.Encode(LoadCerts(env).value.Of(role)) == Encoded(env, role)
  {
    EncodedLoad(env);
    assert DecodePart(env, role) == Ok(LoadCerts(env).value.Of(role));
    Base64.EncodeDecode(Encoded(env, role));
  }

  /** In raw mode each part is its own variable's value, as bytes, with no trimming and no check. */
  lemma RawVerbatim(env: Env, role: Role)
    requires RawMode(env)
    ensures LoadCerts(env).value.Of(role) == Bytes(Getenv(env, VarOf(role)))
  {
  }

  /** Raw PEM text (ASCII) reaches the credential set byte for byte. */
  lemma RawAsciiVerbatim(env: Env, role: Role)
    requires RawMode(env) && Ascii(Getenv(env, VarOf(role)))
    ensures var v := Getenv(env, VarOf(role));
      |LoadCerts(env).value.Of(role)| == |v|
      && forall i :: 0 <= i < |v| ==> LoadCerts(env).value.Of(role)[i] == v[i] as int
  {
    RawVerbatim(env, role);
    BytesOfAscii(Getenv(env, VarOf(role)));
  }
}
