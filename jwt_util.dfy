/**
 * JwtUtil: reading the user id out of an `Authorization` header, classifying token
 * failures, and the claims a freshly issued access or refresh token carries.
 *
 * The JJWT library is replaced by its observable outcome: a `Parser` maps a compact
 * token string to what `parseClaimsJws` does with it (return the claims, or throw one
 * of the exceptions the class catches). Signing, key derivation and Base64 decoding
 * are not modelled; the clock is the parameter `now`.
 */
module JwtUtil {
  import opened Outcomes
  import opened JavaStrings

  const MinLong: int := -0x8000_0000_0000_0000
  const MaxLong: int := 0x7FFF_FFFF_FFFF_FFFF
  const TwoTo64: int := 0x1_0000_0000_0000_0000

  /** Java's `long`. */
  type Long = x: int | MinLong <= x <= MaxLong

  /** Java's `long` addition: the exact sum, wrapped into the 64-bit range. */
  function LongAdd(a: Long, b: Long): (r: Long)
    ensures (r - (a + b)) % TwoTo64 == 0
    ensures MinLong <= a + b <= MaxLong ==> r == a + b
  {
    var s := a + b;
    if s > MaxLong then s - TwoTo64 else if s < MinLong then s + TwoTo64 else s
  }

  /** The claims of a token that the code reads or writes; absent claims are `None`. */
  datatype Claims = Claims(userId: Option<Long>, issuedAt: Option<Long>, expiration: Option<Long>)

  /** The two lifetimes the component is configured with, in milliseconds. */
  datatype JwtSettings = JwtSettings(accessTokenExpTime: Long, refreshTokenExpTime: Long)

  /** What `parseClaimsJws(token)` does with a token under the configured key. */
  datatype ParseOutcome =
    | Signed(claims: Claims)   // returns the signed claims
    | Expired(claims: Claims)  // ExpiredJwtException, which still carries the claims
    | Malformed                // MalformedJwtException
    | BadSignature             // io.jsonwebtoken.security.SecurityException
    | Unsupported              // UnsupportedJwtException
    | Empty                    // IllegalArgumentException: the token string is empty

  type Parser = string -> ParseOutcome

  /** The message an exception is raised with. */
  datatype Reason =
    | InvalidHeaderFormat      // the header is not two space-separated parts
    | UserIdNotFound           // the claims have no `userId`
    | InvalidTokenFormat       // the token was rejected as an illegal argument
    | EmptyJwtString           // JJWT's own message for an empty token

  datatype JwtExceptionKind = MalformedJwt | SignatureFailure | UnsupportedJwt

  /** The exceptions that leave the class. */
  datatype Exception =
    | IllegalArgument(reason: Reason)
    | NoSuchElement(reason: Reason)
    | Jwt(kind: JwtExceptionKind)

  // ---------------------------------------------------------------------------
  // Token creation

  /**
   * The claims `createToken` signs: the user id, issued-at `now` and expiration
   * `now + expireTime` computed in `long` arithmetic.
   */
  function CreateToken(userId: Long, expireTime: Long, now: Long): (c: Claims)
    ensures c.userId == Some(userId) && c.issuedAt == Some(now) && c.expiration.Some?
    ensures MinLong <= c.expiration.value <= MaxLong
    ensures (c.expiration.value - (now + expireTime)) % TwoTo64 == 0
    ensures MinLong <= now + expireTime <= MaxLong ==> c.expiration == Some(now + expireTime)
  {
    Claims(Some(userId), Some(now), Some(LongAdd(now, expireTime)))
  }

  function CreateAccessToken(settings: JwtSettings, userId: Long, now: Long): (c: Claims)
    ensures c.userId == Some(userId) && c.issuedAt == Some(now) && c.expiration.Some?
    ensures (c.expiration.value - (now + settings.accessTokenExpTime)) % TwoTo64 == 0
    ensures MinLong <= now + settings.accessTokenExpTime <= MaxLong ==>
      c.expiration == Some(now + settings.accessTokenExpTime)
  {
    CreateToken(userId, settings.accessTokenExpTime, now)
  }

  function CreateRefreshToken(settings: JwtSettings, userId: Long, now: Long): (c: Claims)
    ensures c.userId == Some(userId) && c.issuedAt == Some(now) && c.expiration.Some?
    ensures (c.expiration.value - (now + settings.refreshTokenExpTime)) % TwoTo64 == 0
    ensures MinLong <= now + settings.refreshTokenExpTime <= MaxLong ==>
      c.expiration == Some(now + settings.refreshTokenExpTime)
  {
    CreateToken(userId, settings.refreshTokenExpTime, now)
  }

  /** Access and refresh tokens issued together differ in their expiration only. */
  lemma AccessAndRefreshDifferOnlyInLifetime(settings: JwtSettings, userId: Long, now: Long)
    ensures CreateAccessToken(settings, userId, now).(expiration := None) ==
            CreateRefreshToken(settings, userId, now).(expiration := None)
    ensures settings.accessTokenExpTime == settings.refreshTokenExpTime <==>
            CreateAccessToken(settings, userId, now) == CreateRefreshToken(settings, userId, now)
  {
    var a, r := settings.accessTokenExpTime, settings.refreshTokenExpTime;
    if CreateAccessToken(settings, userId, now) == CreateRefreshToken(settings, userId, now) {
      var x, y := LongAdd(now, a), LongAdd(now, r);
      assert x == y;
      assert (x - (now + a)) % TwoTo64 == 0 && (y - (now + r)) % TwoTo64 == 0;
      assert -TwoTo64 < a - r < TwoTo64;
      assert (a - r) % TwoTo64 == 0 by {
        assert a - r == (x - (now + r)) - (x - (now + a));
      }
    }
  }

  // ---------------------------------------------------------------------------
  // Header and claims

  /**
   * `extractJwtToken`: split the header on single spaces; exactly two parts give the
   * trimmed second one, anything else is an illegal argument. Because `split` drops
   * trailing empty parts, this is the case exactly when the header, without its
   * trailing spaces, has one space in it.
   */
  function ExtractJwtToken(header: string): (r: Result<string, Exception>)
    ensures r.Ok? <==> CountOf(WithoutTrailingSpaces(header), ' ') == 1
    ensures r.Ok? ==> var t := WithoutTrailingSpaces(header);
      |Pieces(t, ' ')| == 2 && r.value == Trim(Pieces(t, ' ')[1])
    ensures r.Err? ==> r.error == IllegalArgument(InvalidHeaderFormat)
  {
    var parts := Split(header, ' ');
    TwoPartsIffOneSpace(header);
    if |parts| == 2 then Ok(Trim(parts[1])) else Err(IllegalArgument(InvalidHeaderFormat))
  }

  /**
   * Splitting on a space gives two parts exactly when the header, without its trailing
   * spaces, has one space in it; the second part is then the text after that space.
   */
  lemma TwoPartsIffOneSpace(header: string)
    ensures var t := WithoutTrailingSpaces(header);
      (|Split(header, ' ')| == 2 <==> CountOf(t, ' ') == 1) &&
      (|Split(header, ' ')| == 2 ==> |Pieces(t, ' ')| == 2 && Split(header, ' ')[1] == Pieces(t, ' ')[1])
  {
    var t := WithoutTrailingSpaces(header);
    if ' ' !in header {
      assert ' ' !in t by {
        assert forall i :: 0 <= i < |t| ==> t[i] == header[i];
      }
      CountOfAbsent(t, ' ');
    }
  }

  /** `parseClaims`: the claims of a signed token, and those of an expired one too. */
  function ParseClaims(token: string, parse: Parser): (r: Result<Claims, Exception>)
    ensures r.Ok? <==> parse(token).Signed? || parse(token).Expired?
    ensures r.Ok? ==> r.value == parse(token).claims
    ensures parse(token).Empty? ==> r == Err(IllegalArgument(EmptyJwtString))
    ensures r.Err? && !parse(token).Empty? ==> r.error.Jwt?
  {
    match parse(token)
    case Signed(c) => Ok(c)
    case Expired(c) => Ok(c)
    case Malformed => Err(Jwt(MalformedJwt))
    case BadSignature => Err(Jwt(SignatureFailure))
    case Unsupported => Err(Jwt(UnsupportedJwt))
    case Empty => Err(IllegalArgument(EmptyJwtString))
  }

  /** `extractUserIdFromJwtToken`: the `userId` claim, or NoSuchElement when it is absent. */
  function ExtractUserIdFromJwtToken(token: string, parse: Parser): (r: Result<Long, Exception>)
    ensures var o := parse(token);
      r.Ok? <==> (o.Signed? || o.Expired?) && o.claims.userId.Some?
    ensures r.Ok? ==> parse(token).claims.userId == Some(r.value)
    ensures r == Err(NoSuchElement(UserIdNotFound)) <==>
      (parse(token).Signed? || parse(token).Expired?) && parse(token).claims.userId.None?
    ensures r.Err? && r.error.IllegalArgument? <==> parse(token).Empty?
  {
    match ParseClaims(token, parse)
    case Err(e) => Err(e)
    case Ok(claims) =>
      if claims.userId.None? then Err(NoSuchElement(UserIdNotFound)) else Ok(claims.userId.value)
  }

  /**
   * `extractIdFromHeader`: a malformed header becomes an illegal argument about the
   * header, a missing user id NoSuchElement, an illegal token an illegal argument about
   * the token; JJWT's own exceptions pass through unchanged.
   */
  function ExtractIdFromHeader(header: string, parse: Parser): (r: Result<Long, Exception>)
    ensures r == Err(IllegalArgument(InvalidHeaderFormat)) <==>
      CountOf(WithoutTrailingSpaces(header), ' ') != 1
    ensures r.Ok? ==>
      && ExtractJwtToken(header).Ok?
      && ExtractUserIdFromJwtToken(ExtractJwtToken(header).value, parse) == Ok(r.value)
    ensures ExtractJwtToken(header).Ok? ==>
      var o := parse(ExtractJwtToken(header).value);
      && (o.Empty? <==> r == Err(IllegalArgument(InvalidTokenFormat)))
      && ((o.Signed? || o.Expired?) && o.claims.userId.None? <==> r == Err(NoSuchElement(UserIdNotFound)))
      && ((o.Signed? || o.Expired?) && o.claims.userId.Some? <==> r.Ok?)
      && (r.Ok? ==> r.value == o.claims.userId.value)
      && (o.Malformed? <==> r == Err(Jwt(MalformedJwt)))
      && (o.BadSignature? <==> r == Err(Jwt(SignatureFailure)))
      && (o.Unsupported? <==> r == Err(Jwt(UnsupportedJwt)))
  {
    match ExtractJwtToken(header)
    case Err(_) => Err(IllegalArgument(InvalidHeaderFormat))
    case Ok(token) =>
      match ExtractUserIdFromJwtToken(token, parse)
      case Ok(userId) => Ok(userId)
      case Err(NoSuchElement(_)) => Err(NoSuchElement(UserIdNotFound))
      case Err(IllegalArgument(_)) => Err(IllegalArgument(InvalidTokenFormat))
      case Err(e) => Err(e)
  }

  // ---------------------------------------------------------------------------
  // Validation

  /** `validateAccessToken`: true only when the signed parse succeeds; never throws. */
  function ValidateAccessToken(token: string, parse: Parser): (valid: bool)
    ensures valid <==> parse(token).Signed?
  {
    match parse(token)
    case Signed(_) => true
    case Malformed | BadSignature => false
    case Expired(_) => false
    case Unsupported => false
    case Empty => false
  }

  /** `validateRefreshToken`: the same decision, with the failures grouped differently in the log. */
  function ValidateRefreshToken(token: string, parse: Parser): (valid: bool)
    ensures valid <==> parse(token).Signed?
  {
    match parse(token)
    case Signed(_) => true
    case Expired(_) => false
    case BadSignature | Malformed | Unsupported => false
    case Empty => false
  }

  // ---------------------------------------------------------------------------
  // Properties relating the operations

  lemma {:induction false} WithoutTrailingSpacesOf(x: string, k: nat)
    requires x != [] ==> x[|x| - 1] != ' '
    ensures WithoutTrailingSpaces(x + Spaces(k)) == x
    decreases k
  {
    if k > 0 {
      assert (x + Spaces(k))[..|x + Spaces(k)| - 1] == x + Spaces(k - 1);
      WithoutTrailingSpacesOf(x, k - 1);
    } else {
      assert x + Spaces(k) == x;
    }
  }

  /**
   * A scheme, one space, a token and any number of trailing spaces is accepted, and
   * the token comes back trimmed. The scheme may be empty: `" t"` yields `"t"`.
   */
  lemma ExtractBearer(scheme: string, token: string, k: nat)
    requires ' ' !in scheme && ' ' !in token && token != []
    ensures ExtractJwtToken(scheme + [' '] + token + Spaces(k)) == Ok(Trim(token))
  {
    var t := scheme + [' '] + token;
    WithoutTrailingSpacesOf(t, k);
    assert Join([scheme, token], ' ') == t;
    PiecesJoin([scheme, token], ' ');
  }

  /**
   * Two spaces before the last non-space character make the header invalid: a doubled
   * inner space, a leading space before two words, or three or more words.
   */
  lemma RejectsTwoSpaces(x: string, y: string, z: string)
    requires z != [] && z[|z| - 1] != ' '
    ensures ExtractJwtToken(x + [' '] + y + [' '] + z) == Err(IllegalArgument(InvalidHeaderFormat))
  {
    var h := x + [' '] + y + [' '] + z;
    WithoutTrailingSpacesOf(h, 0);
    CountOfAppend(x + [' '] + y + [' '], z, ' ');
    CountOfAppend(x + [' '] + y, [' '], ' ');
    CountOfAppend(x + [' '], y, ' ');
    CountOfAppend(x, [' '], ' ');
  }

  /** A header without any space is invalid. */
  lemma RejectsNoSpace(header: string)
    requires ' ' !in header
    ensures ExtractJwtToken(header) == Err(IllegalArgument(InvalidHeaderFormat))
  {
    var t := WithoutTrailingSpaces(header);
    assert forall i :: 0 <= i < |t| ==> t[i] == header[i];
    CountOfAbsent(t, ' ');
  }

  /** Concrete headers the class accepts: a token after `Bearer`, trailing blanks, or a lone leading space. */
  lemma AcceptedHeaderExamples()
    ensures ExtractJwtToken("Bearer abc") == Ok("abc")
    ensures ExtractJwtToken("Bearer abc  ") == Ok("abc")
    ensures ExtractJwtToken("Bearer abc\t") == Ok("abc")
    ensures ExtractJwtToken(" abc") == Ok("abc")
  {
    assert "Bearer abc" == "Bearer" + [' '] + "abc" + Spaces(0);
    assert "Bearer abc  " == "Bearer" + [' '] + "abc" + Spaces(2);
    assert "Bearer abc\t" == "Bearer" + [' '] + "abc\t" + Spaces(0);
    assert " abc" == "" + [' '] + "abc" + Spaces(0);
    assert Trim("abc\t") == "abc";
    ExtractBearer("Bearer", "abc", 0);
    ExtractBearer("Bearer", "abc", 2);
    ExtractBearer("Bearer", "abc\t", 0);
    ExtractBearer("", "abc", 0);
  }

  /** Concrete headers the class rejects: one word, a doubled space, a leading space, three words. */
  lemma RejectedHeaderExamples()
    ensures ExtractJwtToken("Bearer").Err?
    ensures ExtractJwtToken("Bearer  abc").Err?
    ensures ExtractJwtToken(" Bearer abc").Err?
    ensures ExtractJwtToken("Bearer abc def").Err?
  {
    assert "Bearer  abc" == "Bearer" + [' '] + "" + [' '] + "abc";
    assert " Bearer abc" == "" + [' '] + "Bearer" + [' '] + "abc";
    assert "Bearer abc def" == "Bearer" + [' '] + "abc" + [' '] + "def";
    RejectsNoSpace("Bearer");
    RejectsTwoSpaces("Bearer", "", "abc");
    RejectsTwoSpaces("", "Bearer", "abc");
    RejectsTwoSpaces("Bearer", "abc", "def");
  }

  /**
   * A token that validates also yields claims, while an expired token fails validation
   * yet still yields its user id.
   */
  lemma ValidationAndExtraction(token: string, parse: Parser)
    ensures ValidateAccessToken(token, parse) == ValidateRefreshToken(token, parse)
    ensures ValidateAccessToken(token, parse) ==> ParseClaims(token, parse).Ok?
    ensures parse(token).Expired? && parse(token).claims.userId.Some? ==>
      !ValidateAccessToken(token, parse) &&
      ExtractUserIdFromJwtToken(token, parse) == Ok(parse(token).claims.userId.value)
  {
  }

  /**
   * Round trip: a header carrying a token whose claims are those `createToken` issued,
   * signed and still valid or already expired, yields the user id it was issued for.
   */
  lemma HeaderOfIssuedToken(settings: JwtSettings, userId: Long, now: Long, token: string, parse: Parser)
    requires ' ' !in token && token != [] && token[0] > ' ' && token[|token| - 1] > ' '
    requires parse(token).Signed? || parse(token).Expired?
    requires parse(token).claims in {CreateAccessToken(settings, userId, now), CreateRefreshToken(settings, userId, now)}
    ensures ExtractIdFromHeader("Bearer " + token, parse) == Ok(userId)
  {
    var header := "Bearer " + token;
    assert header == "Bearer" + [' '] + token + Spaces(0);
    ExtractBearer("Bearer", token, 0);
    TrimKeeps(token);
    assert ExtractJwtToken(header) == Ok(token);
    assert ExtractUserIdFromJwtToken(token, parse) == Ok(userId);
  }

  /** The token parser's answer for an empty token turns a header with a blank token into an illegal argument. */
  lemma BlankTokenIsInvalidToken(parse: Parser)
    requires parse("") == Empty
    ensures ExtractIdFromHeader("Bearer \t", parse) == Err(IllegalArgument(InvalidTokenFormat))
  {
    assert "Bearer \t" == "Bearer" + [' '] + "\t" + Spaces(0);
    assert Trim("\t") == "";
    ExtractBearer("Bearer", "\t", 0);
  }
}
