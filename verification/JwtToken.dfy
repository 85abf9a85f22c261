/** The token encoder and decoder of services/jwt-auth/src/main.py. Signing and JSON are total functions
    of the environment; the only thing assumed of JSON is that reading undoes writing. */
module JwtToken {
  import opened Wrappers
  import B = Base64Url

  datatype Json = Text(s: string) | Number(n: int) | Other(rendering: string)

  type Claims = map<string, Json>

  datatype Error =
    | UnsupportedAlgorithm
    | Malformed
    | BadSegment           // base64 or JSON that does not decode
    | InvalidSignature
    | MissingClaims
    | BadExpiry            // `int(payload["exp"])` raises
    | Expired
    | InvalidAudience
    | InvalidIssuer

  datatype Result<T> = Ok(value: T) | Err(error: Error)

  datatype Env = Env(
    dump: Claims -> seq<B.Byte>,
    load: seq<B.Byte> -> Option<Claims>,
    sign: (string, string) -> seq<B.Byte>,
    toInt: Json -> Option<int>)

  /** Reading JSON undoes writing it. */
  ghost predicate JsonRoundTrips(env: Env) {
    forall c :: env.load(env.dump(c)) == Some(c)
  }

  /** `s.split(".")`. */
  function Split(s: string): (parts: seq<string>)
    ensures |parts| >= 1
  {
    if s == "" then [""]
    else
      var rest := Split(s[1..]);
      if s[0] == '.' then [""] + rest else [[s[0]] + rest[0]] + rest[1..]
  }

  lemma {:induction false} SplitPlain(s: string)
    requires forall c :: c in s ==> c != '.'
    ensures Split(s) == [s]
  {
    if s != "" {
      assert forall c :: c in s[1..] ==> c in s;
      SplitPlain(s[1..]);
      assert s[0] in s && s == [s[0]] + s[1..];
    }
  }

  lemma {:induction false} SplitAt(s: string, t: string)
    requires forall c :: c in s ==> c != '.'
    ensures Split(s + "." + t) == [s] + Split(t)
  {
    var whole := s + "." + t;
    if s == "" {
      assert whole[1..] == t;
    } else {
      assert forall c :: c in s[1..] ==> c in s;
      SplitAt(s[1..], t);
      assert whole[0] == s[0] && whole[1..] == s[1..] + "." + t;
      assert s[0] in s && s == [s[0]] + s[1..];
    }
  }

  /** The header dictionary: defaults overridden by the caller's headers. */
  function Header(algorithm: string, headers: Claims): Claims {
    map["typ" := Text("JWT"), "alg" := Text(algorithm)] + headers
  }

  function Encode(env: Env, payload: Claims, secret: string, algorithm: string, headers: Claims): Result<string> {
    if algorithm != "HS256" then Err(UnsupportedAlgorithm)
    else
      var headerPart := B.Encode(env.dump(Header(algorithm, headers)));
      var payloadPart := B.Encode(env.dump(payload));
      var signature := env.sign(secret, headerPart + "." + payloadPart);
      Ok(headerPart + "." + payloadPart + "." + B.Encode(signature))
  }

  /** What the decoder demands of a payload once the token is read, in its order of checks. */
  function Check(env: Env, payload: Claims, required: set<string>, audience: string, issuer: string,
      now: int): Result<Claims>
  {
    if !(required <= payload.Keys) then Err(MissingClaims)
    else
      match env.toInt(if "exp" in payload then payload["exp"] else Number(0))
      case None => Err(BadExpiry)
      case Some(exp) =>
        if exp <= now then Err(Expired)
        else if !("aud" in payload && payload["aud"] == Text(audience)) then Err(InvalidAudience)
        else if !("iss" in payload && payload["iss"] == Text(issuer)) then Err(InvalidIssuer)
        else Ok(payload)
  }

  function Decode(env: Env, token: string, secret: string, audience: string, issuer: string,
                  algorithms: seq<string>, required: set<string>, now: int): Result<Claims>
  {
    if "HS256" !in algorithms then Err(UnsupportedAlgorithm)
    else
      var parts := Split(token);
      if |parts| != 3 then Err(Malformed)
      else
        var expected := env.sign(secret, parts[0] + "." + parts[1]);
        match B.Decode(parts[2])
        case BadPadding => Err(BadSegment)
        case Ok(provided) =>
          if expected != provided then Err(InvalidSignature)
          else match B.Decode(parts[1])
            case BadPadding => Err(BadSegment)
            case Ok(bytes) =>
              match env.load(bytes)
              case None => Err(BadSegment)
              case Some(payload) => Check(env, payload, required, audience, issuer, now)
  }

  /** A token splits into exactly its three parts, whatever is encoded in them. */
  lemma TokenParts(a: seq<B.Byte>, b: seq<B.Byte>, c: seq<B.Byte>)
    ensures Split(B.Encode(a) + "." + B.Encode(b) + "." + B.Encode(c)) == [B.Encode(a), B.Encode(b), B.Encode(c)]
  {
    hide B.Encode, Split;
    var x, y, z := B.Encode(a), B.Encode(b), B.Encode(c);
    B.EncodeShape(a);
    B.EncodeShape(b);
    B.EncodeShape(c);
    assert x + "." + y + "." + z == x + "." + (y + "." + z);
    SplitAt(x, y + "." + z);
    SplitAt(y, z);
    SplitPlain(z);
  }

  /** Decoding an encoded token yields the very claims that went in, subject to the checks alone: the
      transport adds no failure and loses nothing. */
  lemma DecodeEncoded(env: Env, payload: Claims, secret: string, headers: Claims, audience: string, issuer: string,
                      algorithms: seq<string>, required: set<string>, now: int)
    requires JsonRoundTrips(env) && "HS256" in algorithms
    ensures var token := Encode(env, payload, secret, "HS256", headers);
            && token.Ok?
            && Decode(env, token.value, secret, audience, issuer, algorithms, required, now)
               == Check(env, payload, required, audience, issuer, now)
  {
    hide B.Encode, B.Decode, Split, Check;
    var h, p := env.dump(Header("HS256", headers)), env.dump(payload);
    var signature := env.sign(secret, B.Encode(h) + "." + B.Encode(p));
    TokenParts(h, p, signature);
    B.RoundTrip(p);
    B.RoundTrip(signature);
  }

  /** The claims come back if and only if nothing required is missing, the expiry lies in the future
      and audience and issuer match. */
  lemma AcceptedIff(env: Env, payload: Claims, secret: string, headers: Claims, audience: string, issuer: string,
                    algorithms: seq<string>, required: set<string>, now: int)
    requires JsonRoundTrips(env) && "HS256" in algorithms && env.toInt(Number(0)) == Some(0) && now >= 0
    ensures var token := Encode(env, payload, secret, "HS256", headers);
            token.Ok? &&
            (Decode(env, token.value, secret, audience, issuer, algorithms, required, now) == Ok(payload) <==>
              && required <= payload.Keys
              && "exp" in payload && env.toInt(payload["exp"]).Some? && env.toInt(payload["exp"]).value > now
              && "aud" in payload && payload["aud"] == Text(audience)
              && "iss" in payload && payload["iss"] == Text(issuer))
  {
    DecodeEncoded(env, payload, secret, headers, audience, issuer, algorithms, required, now);
    hide Encode, Decode;
  }

  /** The claims are in order: nothing required is missing, the expiry, zero if there is none, lies in the
      future, and audience and issuer match. */
  predicate ClaimsOk(env: Env, payload: Claims, audience: string, issuer: string, required: set<string>, now: int) {
    && required <= payload.Keys
    && (var exp := env.toInt(if "exp" in payload then payload["exp"] else Number(0)); exp.Some? && exp.value > now)
    && "aud" in payload && payload["aud"] == Text(audience)
    && "iss" in payload && payload["iss"] == Text(issuer)
  }

  /** Exactly which tokens are accepted, whoever made them: three parts, of which the third decodes to the
      signature of the first two under the secret and the second to claims that are in order. */
  lemma DecodeExactly(env: Env, token: string, secret: string, audience: string, issuer: string,
                      algorithms: seq<string>, required: set<string>, now: int, claims: Claims)
    ensures Decode(env, token, secret, audience, issuer, algorithms, required, now) == Ok(claims) <==>
              && "HS256" in algorithms
              && var parts := Split(token);
              && |parts| == 3
              && B.Decode(parts[2]) == B.Ok(env.sign(secret, parts[0] + "." + parts[1]))
              && B.Decode(parts[1]).Ok? && env.load(B.Decode(parts[1]).value) == Some(claims)
              && ClaimsOk(env, claims, audience, issuer, required, now)
  {
    hide B.Decode, Split;
  }

  /** A token made with a secret whose signature differs is never accepted; the error is that of the
      signature. */
  lemma ForgedRejected(env: Env, payload: Claims, forger: string, secret: string, headers: Claims, audience: string,
                       issuer: string, algorithms: seq<string>, required: set<string>, now: int)
    requires "HS256" in algorithms
    requires var input := B.Encode(env.dump(Header("HS256", headers))) + "." + B.Encode(env.dump(payload));
             env.sign(forger, input) != env.sign(secret, input)
    ensures var token := Encode(env, payload, forger, "HS256", headers);
            && token.Ok?
            && Decode(env, token.value, secret, audience, issuer, algorithms, required, now) == Err(InvalidSignature)
  {
    hide B.Encode, B.Decode, Split, Check;
    var h, p := env.dump(Header("HS256", headers)), env.dump(payload);
    var signature := env.sign(forger, B.Encode(h) + "." + B.Encode(p));
    TokenParts(h, p, signature);
    B.RoundTrip(signature);
  }

  /** Which check fails first. */
  lemma CheckErrors(env: Env, payload: Claims, required: set<string>, audience: string, issuer: string, now: int)
    ensures var r := Check(env, payload, required, audience, issuer, now);
            var exp := env.toInt(if "exp" in payload then payload["exp"] else Number(0));
            && (r == Err(MissingClaims) <==> exists claim :: claim in required && claim !in payload)
            && (r == Err(BadExpiry) <==> required <= payload.Keys && exp.None?)
            && (r == Err(Expired) <==> required <= payload.Keys && exp.Some? && exp.value <= now)
            && (r == Err(InvalidAudience) <==>
                  && required <= payload.Keys && exp.Some? && exp.value > now
                  && !("aud" in payload && payload["aud"] == Text(audience)))
            && (r == Err(InvalidIssuer) <==>
                  && required <= payload.Keys && exp.Some? && exp.value > now
                  && "aud" in payload && payload["aud"] == Text(audience)
                  && !("iss" in payload && payload["iss"] == Text(issuer)))
            && (r.Ok? ==> r == Ok(payload))
  {
  }

  /** What the first part of a token says: type and algorithm, and whatever headers the caller gave, which
      take precedence. Only HS256 is encoded at all. */
  lemma HeaderDecodes(env: Env, payload: Claims, secret: string, algorithm: string, headers: Claims)
    requires JsonRoundTrips(env)
    ensures Encode(env, payload, secret, algorithm, headers).Ok? <==> algorithm == "HS256"
    ensures algorithm == "HS256" ==>
              var parts := Split(Encode(env, payload, secret, algorithm, headers).value);
              && |parts| == 3 && B.Decode(parts[0]).Ok?
              && var header := env.load(B.Decode(parts[0]).value);
              && header.Some? && header.value.Keys == headers.Keys + {"typ", "alg"}
              && (forall k :: k in headers ==> header.value[k] == headers[k])
              && ("typ" !in headers ==> header.value["typ"] == Text("JWT"))
              && ("alg" !in headers ==> header.value["alg"] == Text("HS256"))
  {
    if algorithm == "HS256" {
      hide B.Encode, B.Decode, Split;
      var h, p := env.dump(Header(algorithm, headers)), env.dump(payload);
      TokenParts(h, p, env.sign(secret, B.Encode(h) + "." + B.Encode(p)));
      B.RoundTrip(h);
    }
  }
}
