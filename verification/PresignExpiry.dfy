/** How long a presigned URL lives: seconds asked for, multiplied into a 64-bit duration that may
    wrap, and clamped twice. */
module PresignExpiry {
  import opened Common

  /** time.Second, and the seven days both clamps use, in nanoseconds. */
  const SECOND := 1_000_000_000
  const HOUR := 3600 * SECOND
  const MAX_SECONDS := 604_800
  const MAX_EXPIRY := MAX_SECONDS * SECOND

  /** The largest number of seconds that fits a duration. */
  const WHOLE_SECONDS := 9_223_372_036

  predicate Int64(n: int) { -0x8000_0000_0000_0000 <= n < 0x8000_0000_0000_0000 }

  /** The query's expires parameter: absent, not a 64-bit number, or one. */
  datatype Parameter = Absent | Malformed | Number(sec: int)

  predicate WellFormed(p: Parameter) { p.Number? ==> Int64(p.sec) }

  /** A URL lives for lifetime nanoseconds and says header in X-Amz-Expires. */
  datatype Reply = InvalidExpires | Url(lifetime: int, header: int)

  function Min(a: int, b: int): (m: int) { if a <= b then a else b }

  function Requested(sec: int): (duration: int) { Wrap64(sec * SECOND) }

  function Lifetime(expiry: int): (duration: int)
    ensures 0 < duration <= MAX_EXPIRY
  {
    if expiry > MAX_EXPIRY then MAX_EXPIRY else if expiry <= 0 then HOUR else expiry
  }

  function Header(sec: int): (n: int) { Lifetime(Requested(sec)) / SECOND }

  /** A request for sec seconds gets the least of sec and seven days, in lifetime and in the header
      alike, if and only if the duration did not wrap, or wrapped to seven days or more. */
  lemma ExactWhenNotWrapped(sec: int)
    requires 0 < sec && Int64(sec)
    ensures Lifetime(Requested(sec)) == Min(sec, MAX_SECONDS) * SECOND <==>
            sec <= WHOLE_SECONDS || Requested(sec) >= MAX_EXPIRY
    ensures sec <= WHOLE_SECONDS ==> Header(sec) == Min(sec, MAX_SECONDS)
  {}

  /** Whatever 64-bit number of seconds is asked for, the lifetime is positive and at most seven
      days, and the header is between 0 and 604800; it is 0 exactly when the duration wraps to a
      positive part of a second. */
  lemma HeaderBounds(sec: int)
    requires 0 < sec && Int64(sec)
    ensures 0 < Lifetime(Requested(sec)) <= MAX_EXPIRY
    ensures 0 <= Header(sec) <= MAX_SECONDS
    ensures Header(sec) == 0 <==> sec > WHOLE_SECONDS && 0 < Requested(sec) < SECOND
  {}

  /** A positive number of seconds whose header is 0, and the least one that yields an hour where
      seven days were due. */
  lemma WrappedRequests()
    ensures Int64(20211507185753197) && Requested(20211507185753197) == 512 && Header(20211507185753197) == 0
    ensures Requested(WHOLE_SECONDS + 1) < 0 && Header(WHOLE_SECONDS + 1) == 3600
  {}

  /** PresignGetURL's own clamps, and what is written in the header. */
  method PresignGetUrl(expires: int) returns (lifetime: int, header: int)
    ensures lifetime == Lifetime(expires)
    ensures expires <= 0 ==> lifetime == 3_600_000_000_000
    ensures 0 < expires <= 604_800_000_000_000 ==> lifetime == expires
    ensures expires > 604_800_000_000_000 ==> lifetime == 604_800_000_000_000
    ensures header * SECOND <= lifetime < (header + 1) * SECOND
  {
    lifetime := expires;
    if lifetime <= 0 { lifetime := HOUR; }
    if lifetime > MAX_EXPIRY { lifetime := MAX_EXPIRY; }
    header := lifetime / SECOND;
  }

  /** NewURL: a default that is not positive is an hour. */
  method DefaultExpiry(configured: int) returns (expiry: int)
    ensures expiry > 0 && (configured > 0 ==> expiry == configured) && (configured <= 0 ==> expiry == HOUR)
  {
    expiry := configured;
    if expiry <= 0 { expiry := HOUR; }
  }

  method ServeUrl(p: Parameter, defaultExpiry: int) returns (reply: Reply)
    requires WellFormed(p) && defaultExpiry > 0
    ensures reply.InvalidExpires? <==> p.Malformed? || (p.Number? && p.sec <= 0)
    ensures reply.Url? ==> 0 < reply.lifetime <= MAX_EXPIRY && 0 <= reply.header <= MAX_SECONDS
    ensures p.Absent? ==> reply == Url(Min(defaultExpiry, MAX_EXPIRY), Min(defaultExpiry, MAX_EXPIRY) / SECOND)
    ensures p.Number? && p.sec > 0 ==> reply == Url(Lifetime(Requested(p.sec)), Header(p.sec))
    ensures p.Number? && 0 < p.sec <= WHOLE_SECONDS ==>
              reply == Url(Min(p.sec, MAX_SECONDS) * SECOND, Min(p.sec, MAX_SECONDS))
  {
    var expiry := defaultExpiry;
    match p {
      case Absent =>
      case Malformed => return InvalidExpires;
      case Number(sec) =>
        if sec <= 0 { return InvalidExpires; }
        expiry := Wrap64(sec * SECOND);
        HeaderBounds(sec);
        ExactWhenNotWrapped(sec);
    }
    if expiry > MAX_EXPIRY { expiry := MAX_EXPIRY; }
    var lifetime, header := PresignGetUrl(expiry);
    reply := Url(lifetime, header);
  }
}
