/**
 * Short-lived signed assertions between services: base64url(payload) + "." + hex(HMAC(payload)).
 * The HMAC (section 2 of RFC 2104), the JSON text and int() on strings are parameters of the model.
 */
module SignedAssertion {
  import opened Prelude
  import opened Base64Url

  datatype Json =
    | JNull
    | JBool(b: bool)
    | JInt(n: int)
    | JReal(r: real)
    | JInfinity(negative: bool)
    | JNaN
    | JStr(s: string)
    | JList(items: seq<Json>)
    | JObject(fields: map<string, Json>)

  type Claims = map<string, Json>

  /**
   * What json.loads makes of bytes. It raises a plain ValueError for an integer of more than 4300 digits and
   * RecursionError for nesting that is too deep; neither is a JSONDecodeError or a UnicodeDecodeError.
   */
  datatype Loaded = Parsed(json: Json) | NoJson | LongInteger | TooDeep

  datatype Runtime = Runtime(
    dumps: Claims -> seq<Byte>,
    loads: seq<Byte> -> Loaded,
    mac: (string, seq<Byte>) -> string,
    parseInt: string -> Option<int>)

  /** What verification raises. The first six are ValueErrors; the last three are not. */
  datatype Rejection =
    | MalformedAssertion
    | InvalidSignature
    | MalformedPayload
    | BadExpiry
    | Expired
    | RaisedValueError
    | RaisedTypeError
    | RaisedOverflowError
    | RaisedRecursionError

  predicate HexDigit(c: char) { '0' <= c <= '9' || 'a' <= c <= 'f' }

  predicate Hex(s: string) { |s| == 64 && forall i :: 0 <= i < |s| ==> HexDigit(s[i]) }

  /** Digests are 64 hexadecimal digits. */
  ghost predicate Sound(rt: Runtime) { forall secret: string, b: seq<Byte> :: Hex(rt.mac(secret, b)) }

  /** The claims parse back from their text, as those do that are not too deep and hold no integer that is too long. */
  predicate Survives(rt: Runtime, c: Claims) { rt.loads(rt.dumps(c)) == Parsed(JObject(c)) }

  // ---------------------------------------------------------------- the code

  /** compare_digest refuses a str with non-ASCII characters by raising TypeError. */
  function VerifyHmac(rt: Runtime, payload: seq<Byte>, signature: string, secret: string): Result<bool, Rejection> {
    if secret == "" || signature == "" then Ok(false)
    else if !Ascii(rt.mac(secret, payload)) || !Ascii(signature) then Err(RaisedTypeError)
    else Ok(rt.mac(secret, payload) == signature)
  }

  function Stamp(claims: Claims, now: int, ttl: int): Claims {
    claims["iat" := JInt(now)]["exp" := JInt(now + ttl)]
  }

  function Create(rt: Runtime, claims: Claims, secret: string, ttl: int, now: int): string {
    var payload := rt.dumps(Stamp(claims, now, ttl));
    Strip(Encode(payload)) + "." + rt.mac(secret, payload)
  }

  /** token.rsplit(".", 1) on a token that has a dot. */
  function SplitLast(token: string): (string, string)
    requires '.' in token
  {
    var n := |token| - 1;
    if token[n] == '.' then (token[..n], "")
    else
      assert token == token[..n] + [token[n]];
      var (head, tail) := SplitLast(token[..n]);
      (head, tail + [token[n]])
  }

  /** int() of a float rounds toward zero. */
  function Truncate(r: real): int { if r >= 0.0 then r.Floor else -(-r).Floor }

  /** int(payload.get("exp", 0)) */
  function Expiry(rt: Runtime, payload: Claims): Result<int, Rejection> {
    if "exp" !in payload then Ok(0)
    else
      match payload["exp"]
      case JInt(n) => Ok(n)
      case JBool(b) => Ok(if b then 1 else 0)
      case JReal(r) => Ok(Truncate(r))
      case JInfinity(_) => Err(RaisedOverflowError)
      case JNaN => Err(BadExpiry)
      case JStr(s) => (match rt.parseInt(s) case Some(n) => Ok(n) case None => Err(BadExpiry))
      case _ => Err(RaisedTypeError)
  }

  function CheckPayload(rt: Runtime, bytes: seq<Byte>, now: int): Result<Claims, Rejection> {
    match rt.loads(bytes)
    case Parsed(JObject(payload)) =>
      (match Expiry(rt, payload)
       case Err(e) => Err(e)
       case Ok(exp) => if exp < now then Err(Expired) else Ok(payload))
    case Parsed(_) => Err(MalformedPayload)
    case NoJson => Err(MalformedPayload)
    case LongInteger => Err(RaisedValueError)
    case TooDeep => Err(RaisedRecursionError)
  }

  function Verify(rt: Runtime, token: string, secret: string, now: int): Result<Claims, Rejection> {
    if token == "" || '.' !in token then Err(MalformedAssertion)
    else
      var (encoded, signature) := SplitLast(token);
      match Decode(Restore(encoded))
      case None => Err(MalformedAssertion)
      case Some(bytes) =>
        match VerifyHmac(rt, bytes, signature, secret)
        case Err(e) => Err(e)
        case Ok(false) => Err(InvalidSignature)
        case Ok(true) => CheckPayload(rt, bytes, now)
  }

  // ---------------------------------------------------------------- splitting

  lemma {:induction false} SplitLastIs(head: string, tail: string)
    requires forall i :: 0 <= i < |tail| ==> tail[i] != '.'
    ensures '.' in head + "." + tail && SplitLast(head + "." + tail) == (head, tail)
    decreases |tail|
  {
    var token := head + "." + tail;
    assert token[|head|] == '.';
    var n := |token| - 1;
    if tail == "" {
      assert token[..n] == head;
    } else {
      var m := |tail| - 1;
      assert token[..n] == head + "." + tail[..m];
      SplitLastIs(head, tail[..m]);
      assert tail[..m] + [tail[m]] == tail;
    }
  }

  lemma {:induction false} SplitLastJoins(token: string)
    requires '.' in token
    ensures var (head, tail) := SplitLast(token);
            token == head + "." + tail && forall i :: 0 <= i < |tail| ==> tail[i] != '.'
  {
    var n := |token| - 1;
    if token[n] != '.' {
      assert token == token[..n] + [token[n]];
      SplitLastJoins(token[..n]);
    }
  }

  /** The last dot of a created token separates exactly the encoded payload from the signature. */
  lemma TokenSplits(rt: Runtime, claims: Claims, secret: string, ttl: int, now: int)
    requires Sound(rt)
    ensures var payload := rt.dumps(Stamp(claims, now, ttl));
            var token := Create(rt, claims, secret, ttl, now);
            '.' in token && SplitLast(token) == (Strip(Encode(payload)), rt.mac(secret, payload))
  {
    var payload := rt.dumps(Stamp(claims, now, ttl));
    assert Hex(rt.mac(secret, payload));
    SplitLastIs(Strip(Encode(payload)), rt.mac(secret, payload));
  }

  lemma HexIsAscii(s: string)
    requires Hex(s)
    ensures Ascii(s) && s != ""
  {
  }

  // ---------------------------------------------------------------- round trip

  /**
   * A created token reaches the checks of its own payload bytes exactly if the verifier's secret makes the same
   * MAC.
   */
  lemma CreatedIsChecked(rt: Runtime, claims: Claims, issuer: string, ttl: int, issued: int, verifier: string, now: int)
    requires Sound(rt)
    ensures var payload := rt.dumps(Stamp(claims, issued, ttl));
            Verify(rt, Create(rt, claims, issuer, ttl, issued), verifier, now)
            == if verifier == "" || rt.mac(verifier, payload) != rt.mac(issuer, payload) then Err(InvalidSignature)
               else CheckPayload(rt, payload, now)
  {
    var payload := rt.dumps(Stamp(claims, issued, ttl));
    TokenSplits(rt, claims, issuer, ttl, issued);
    RoundTrip(payload);
    HexIsAscii(rt.mac(issuer, payload));
    HexIsAscii(rt.mac(verifier, payload));
  }

  lemma PayloadChecked(rt: Runtime, bytes: seq<Byte>, stamped: Claims, exp: int, now: int)
    requires "exp" in stamped && stamped["exp"] == JInt(exp)
    ensures CheckPayload(rt, bytes, now) == Ok(stamped) <==> rt.loads(bytes) == Parsed(JObject(stamped)) && now <= exp
    ensures rt.loads(bytes) == Parsed(JObject(stamped)) && exp < now ==> CheckPayload(rt, bytes, now) == Err(Expired)
  {
  }

  /** What verifying a created token gives, for every secret on either side and every pair of times. */
  lemma VerifyCreated(rt: Runtime, claims: Claims, issuer: string, ttl: int, issued: int, verifier: string, now: int)
    requires Sound(rt)
    ensures var payload := rt.dumps(Stamp(claims, issued, ttl));
            var verdict := Verify(rt, Create(rt, claims, issuer, ttl, issued), verifier, now);
            if verifier == "" || rt.mac(verifier, payload) != rt.mac(issuer, payload)
            then verdict == Err(InvalidSignature)
            else if !Survives(rt, Stamp(claims, issued, ttl)) then verdict != Ok(Stamp(claims, issued, ttl))
            else verdict == if issued + ttl < now then Err(Expired) else Ok(Stamp(claims, issued, ttl))
  {
    CreatedIsChecked(rt, claims, issuer, ttl, issued, verifier, now);
    PayloadChecked(rt, rt.dumps(Stamp(claims, issued, ttl)), Stamp(claims, issued, ttl), issued + ttl, now);
  }

  /**
   * With one non-empty secret the claims, stamped, come back exactly if they survive their own JSON text and
   * the expiry second is not past. Claims that survive are expired after it.
   */
  lemma AssertionRoundTrip(rt: Runtime, claims: Claims, secret: string, ttl: int, issued: int, now: int)
    requires Sound(rt) && secret != ""
    ensures var verdict := Verify(rt, Create(rt, claims, secret, ttl, issued), secret, now);
            var stamped := Stamp(claims, issued, ttl);
            && (verdict == Ok(stamped) <==> Survives(rt, stamped) && now <= issued + ttl)
            && (Survives(rt, stamped) ==> (verdict == Err(Expired) <==> now > issued + ttl))
            && stamped.Keys == claims.Keys + {"iat", "exp"}
            && stamped["iat"] == JInt(issued) && stamped["exp"] == JInt(issued + ttl)
            && forall k :: k in claims && k != "iat" && k != "exp" ==> stamped[k] == claims[k]
  {
    VerifyCreated(rt, claims, secret, ttl, issued, secret, now);
  }

  /** Whatever is accepted carries the signature of its own payload bytes, and has not expired. */
  lemma AcceptedIsSigned(rt: Runtime, token: string, secret: string, now: int)
    requires Sound(rt) && Verify(rt, token, secret, now).Ok?
    ensures exists encoded, bytes ::
              && token == encoded + "." + rt.mac(secret, bytes)
              && Decode(Restore(encoded)) == Some(bytes)
              && rt.loads(bytes) == Parsed(JObject(Verify(rt, token, secret, now).value))
    ensures secret != ""
    ensures Expiry(rt, Verify(rt, token, secret, now).value).Ok?
    ensures now <= Expiry(rt, Verify(rt, token, secret, now).value).value
  {
    SplitLastJoins(token);
    var (encoded, signature) := SplitLast(token);
    var bytes := Decode(Restore(encoded)).value;
    assert signature == rt.mac(secret, bytes);
  }

  /** Replacing the signature of a created token by any other ASCII string without a dot is rejected. */
  lemma ForgedSignatureRejected(
      rt: Runtime, claims: Claims, secret: string, ttl: int, issued: int, forged: string, now: int)
    requires Sound(rt) && Ascii(forged) && '.' !in forged
    requires forged != rt.mac(secret, rt.dumps(Stamp(claims, issued, ttl)))
    ensures Verify(rt, Strip(Encode(rt.dumps(Stamp(claims, issued, ttl)))) + "." + forged, secret, now)
         == Err(InvalidSignature)
  {
    var payload := rt.dumps(Stamp(claims, issued, ttl));
    SplitLastIs(Strip(Encode(payload)), forged);
    RoundTrip(payload);
    assert Hex(rt.mac(secret, payload));
    HexIsAscii(rt.mac(secret, payload));
  }

  // ---------------------------------------------------------------- rejections that are no ValueError

  predicate ValueError(r: Rejection) { r !in {RaisedTypeError, RaisedOverflowError, RaisedRecursionError} }

  /** An expiry that int() refuses with something else than a ValueError. */
  predicate BadExpiryType(payload: Claims) {
    "exp" in payload && match payload["exp"]
                        case JNull => true
                        case JList(_) => true
                        case JObject(_) => true
                        case JInfinity(_) => true
                        case _ => false
  }

  /** The part before the last dot decodes, and there is a secret: the signature is looked at. */
  predicate Examined(token: string, secret: string) {
    '.' in token && secret != "" && Decode(Restore(SplitLast(token).0)).Some?
  }

  function BytesOf(token: string): seq<Byte>
    requires '.' in token && Decode(Restore(SplitLast(token).0)).Some?
  {
    Decode(Restore(SplitLast(token).0)).value
  }

  predicate SignedWith(rt: Runtime, token: string, secret: string, bytes: seq<Byte>)
    requires '.' in token
  {
    SplitLast(token).1 == rt.mac(secret, bytes)
  }

  /** The bytes are an object with such an expiry. */
  predicate BadExpiryIn(rt: Runtime, bytes: seq<Byte>) {
    rt.loads(bytes).Parsed? && rt.loads(bytes).json.JObject? && BadExpiryType(rt.loads(bytes).json.fields)
  }

  /** Some character is above 127. */
  predicate BeyondAscii(s: string) { exists c :: c in s && c as int > 127 }

  lemma NotAscii(s: string)
    ensures !Ascii(s) <==> BeyondAscii(s)
  {
    if !Ascii(s) {
      var c :| c in s && !(c < '\U{80}');
      assert c as int > 127;
    }
  }

  lemma ExaminedMac(rt: Runtime, token: string, secret: string)
    requires Sound(rt) && Examined(token, secret)
    ensures Ascii(rt.mac(secret, BytesOf(token))) && rt.mac(secret, BytesOf(token)) != ""
  {
    HexIsAscii(rt.mac(secret, BytesOf(token)));
  }

  /** The verdict on a token whose signature is looked at. */
  lemma ExaminedVerdict(rt: Runtime, token: string, secret: string, now: int)
    requires Sound(rt) && Examined(token, secret)
    ensures var bytes := BytesOf(token);
            Verify(rt, token, secret, now)
            == if BeyondAscii(SplitLast(token).1) then Err(RaisedTypeError)
               else if SignedWith(rt, token, secret, bytes) then CheckPayload(rt, bytes, now)
               else Err(InvalidSignature)
  {
    ExaminedMac(rt, token, secret);
    NotAscii(SplitLast(token).1);
  }

  /**
   * Every rejection is meant to be a ValueError. It is one for every token, secret and time except when the
   * payload decodes under a non-empty secret and either the signature is not ASCII, or it is right and the
   * payload is nested too deep or is an object whose expiry is null, a list, an object or infinite.
   */
  lemma NotValueErrorIff(rt: Runtime, token: string, secret: string, now: int)
    requires Sound(rt)
    ensures var verdict := Verify(rt, token, secret, now);
            (verdict.Err? && !ValueError(verdict.error)) <==>
              && Examined(token, secret)
              && var bytes := BytesOf(token);
                 || BeyondAscii(SplitLast(token).1)
                 || (SignedWith(rt, token, secret, bytes) && (rt.loads(bytes) == TooDeep || BadExpiryIn(rt, bytes)))
  {
    if Examined(token, secret) {
      ExaminedVerdict(rt, token, secret, now);
    }
  }

  /**
   * Of these, for every token, a payload nested too deep raises RecursionError, an infinite expiry OverflowError,
   * all others TypeError.
   */
  lemma TypeErrorIff(rt: Runtime, token: string, secret: string, now: int)
    requires Sound(rt)
    ensures Verify(rt, token, secret, now) == Err(RaisedTypeError) <==>
              && Examined(token, secret)
              && var bytes := BytesOf(token);
                 || BeyondAscii(SplitLast(token).1)
                 || (SignedWith(rt, token, secret, bytes) && BadExpiryIn(rt, bytes)
                     && !rt.loads(bytes).json.fields["exp"].JInfinity?)
    ensures Verify(rt, token, secret, now) == Err(RaisedRecursionError) <==>
              && Examined(token, secret)
              && SignedWith(rt, token, secret, BytesOf(token)) && rt.loads(BytesOf(token)) == TooDeep
  {
    if Examined(token, secret) {
      ExaminedVerdict(rt, token, secret, now);
    }
  }

  /** The token that signs these bytes as they are. */
  function Signed(rt: Runtime, bytes: seq<Byte>, secret: string): string {
    Strip(Encode(bytes)) + "." + rt.mac(secret, bytes)
  }

  lemma SignedIsExamined(rt: Runtime, bytes: seq<Byte>, secret: string)
    requires Sound(rt) && secret != ""
    ensures var token := Signed(rt, bytes, secret);
            Examined(token, secret) && BytesOf(token) == bytes && SignedWith(rt, token, secret, bytes)
  {
    assert Hex(rt.mac(secret, bytes));
    SplitLastIs(Strip(Encode(bytes)), rt.mac(secret, bytes));
    RoundTrip(bytes);
  }

  /**
   * Correctly signed bytes are such a token at every time if they are nested too deep, or are an object whose
   * expiry is null.
   */
  lemma SignedRaises(rt: Runtime, bytes: seq<Byte>, secret: string, now: int)
    requires Sound(rt) && secret != ""
    ensures rt.loads(bytes) == TooDeep ==>
        Verify(rt, Signed(rt, bytes, secret), secret, now) == Err(RaisedRecursionError)
    ensures forall c :: rt.loads(bytes) == Parsed(JObject(c)) && "exp" in c && c["exp"] == JNull ==>
              Verify(rt, Signed(rt, bytes, secret), secret, now) == Err(RaisedTypeError)
  {
    SignedIsExamined(rt, bytes, secret);
    TypeErrorIff(rt, Signed(rt, bytes, secret), secret, now);
  }

  // ---------------------------------------------------------------- until when a signed object is accepted

  /**
   * The seconds at which a payload has not expired: up to a whole number, a number rounded toward zero, or what
   * a text parses as; True counts as 1, False as 0, and so does a payload without an expiry.
   */
  predicate NotExpired(rt: Runtime, payload: Claims, now: int) {
    if "exp" !in payload then now <= 0
    else
      match payload["exp"]
      case JInt(n) => now <= n
      case JBool(b) => now < 1 || (now == 1 && b)
      case JReal(r) => if r >= 0.0 then now as real <= r else (now - 1) as real < r
      case JStr(text) => rt.parseInt(text).Some? && now <= rt.parseInt(text).value
      case _ => false
  }

  /** Exactly when a correctly signed object is accepted, and then with all of its claims. */
  lemma SignedAcceptedIff(rt: Runtime, bytes: seq<Byte>, payload: Claims, secret: string, now: int)
    requires Sound(rt) && secret != "" && rt.loads(bytes) == Parsed(JObject(payload))
    ensures var verdict := Verify(rt, Signed(rt, bytes, secret), secret, now);
            && (verdict.Ok? <==> NotExpired(rt, payload, now))
            && (verdict.Ok? ==> verdict.value == payload)
  {
    SignedIsExamined(rt, bytes, secret);
    ExaminedMac(rt, Signed(rt, bytes, secret), secret);
    TruncateIs(payload, now);
  }

  lemma TruncateIs(payload: Claims, now: int)
    ensures "exp" in payload && payload["exp"].JReal? ==>
              var r := payload["exp"].r;
              now <= Truncate(r) <==> if r >= 0.0 then now as real <= r else (now - 1) as real < r
  {
  }
}
