/** Signed page cursors: what is built for a session opens for that session, limit and time, and for no other. */
module Cursor {
  import opened Wrappers
  import opened Text

  type Bytes = seq<bv8>

  datatype Payload = Payload(
    version: int, session: string, startedAt: string, exec: string, limit: int, issuedAt: int, expiresAt: int)

  /** JSON, base64url without padding, and the keyed hash. */
  datatype Codec = Codec(
    marshal: Payload -> Option<Bytes>,
    unmarshal: Bytes -> Option<Payload>,
    encode: Bytes -> string,
    decode: string -> Option<Bytes>,
    sign: (Bytes, string) -> Bytes)

  /** The alphabet of base64url, section 5 of RFC 4648. */
  predicate UrlSafe(c: char) {
    'A' <= c <= 'Z' || 'a' <= c <= 'z' || '0' <= c <= '9' || c == '-' || c == '_'
  }

  predicate AllUrlSafe(s: string) {
    forall i :: 0 <= i < |s| ==> UrlSafe(s[i])
  }

  /** What is read back is what was written. */
  ghost predicate Lawful(codec: Codec) {
    && (forall p :: codec.marshal(p).Some? ==> codec.unmarshal(codec.marshal(p).value) == Some(p))
    && (forall b :: codec.decode(codec.encode(b)) == Some(b))
    && (forall b :: AllUrlSafe(codec.encode(b)))
  }

  datatype CursorError =
    | SecretRequired | MarshalFails | BadLegacy | BadFormat | BadEncoding | BadSignature | BadPayload
    | BadVersion | WrongSession | Expired | TooOld | MissingFields | WrongLimit

  /** The position after which a page starts; both parts are empty for the first page. */
  datatype Position = Position(startedAt: string, exec: string)

  // Strings

  /** The parts of strings.SplitN(s, separator, 2), for a string that contains the separator. */
  function Cut(s: string, separator: char): (string, string)
    requires separator in s
  {
    if s[0] == separator then ("", s[1..])
    else var (a, b) := Cut(s[1..], separator); ([s[0]] + a, b)
  }

  // Building and parsing

  function BuildCursor(
      codec: Codec, session: string, startedAt: string, exec: string, limit: int, secret: string, ttl: int, now: int)
    : Result<string, CursorError>
  {
    if Trim(startedAt) == "" || Trim(exec) == "" then Ok("")
    else if Trim(secret) == "" then Err(SecretRequired)
    else
      match codec.marshal(Payload(1, session, startedAt, exec, limit, now, if ttl > 0 then now + ttl else 0))
      case None => Err(MarshalFails)
      case Some(body) => Ok(codec.encode(body) + "." + codec.encode(codec.sign(body, secret)))
  }

  function ParseToken(codec: Codec, token: string, secret: string): Result<Payload, CursorError> {
    var parts := Split(token, '.');
    if |parts| != 2 then Err(BadFormat)
    else
      var body, signature := codec.decode(parts[0]), codec.decode(parts[1]);
      if body.None? || signature.None? then Err(BadEncoding)
      else if signature.value != codec.sign(body.value, secret) then Err(BadSignature)
      else
        match codec.unmarshal(body.value)
        case None => Err(BadPayload)
        case Some(payload) => if payload.version != 1 then Err(BadVersion) else Ok(payload)
  }

  /** The checks of parseCursor on a payload; the clock is read at `now` and again at `later`. */
  function CheckPayload(p: Payload, session: string, limit: int, ttl: int, now: int, later: int)
    : Result<Position, CursorError>
  {
    if p.session != session then Err(WrongSession)
    else if p.expiresAt > 0 && now > p.expiresAt then Err(Expired)
    else if ttl > 0 && p.issuedAt > 0 && later - p.issuedAt > ttl * 2 then Err(TooOld)
    else if p.startedAt == "" || p.exec == "" then Err(MissingFields)
    else if p.limit > 0 && limit > 0 && p.limit != limit then Err(WrongLimit)
    else Ok(Position(p.startedAt, p.exec))
  }

  function ParseCursor(
      codec: Codec, session: string, cursor: string, limit: int, secret: string, ttl: int, now: int, later: int)
    : Result<Position, CursorError>
  {
    var cursor := Trim(cursor);
    if cursor == "" then Ok(Position("", ""))
    else if '|' in cursor then
      var (startedAt, exec) := Cut(cursor, '|');
      if Trim(startedAt) == "" || Trim(exec) == "" then Err(BadLegacy) else Ok(Position(startedAt, exec))
    else if Trim(secret) == "" then Err(SecretRequired)
    else
      match ParseToken(codec, cursor, secret)
      case Err(e) => Err(e)
      case Ok(payload) => CheckPayload(payload, session, limit, ttl, now, later)
  }

  // What opens

  /** The string before the first separator and the one after it. */
  lemma {:induction false} CutExactly(s: string, separator: char)
    requires separator in s
    ensures var (a, b) := Cut(s, separator); s == a + [separator] + b && separator !in a
  {
    if s[0] != separator {
      CutExactly(s[1..], separator);
      assert s == [s[0]] + s[1..];
    } else {
      assert s == [separator] + s[1..];
    }
  }

  /** An old cursor, a start time and an id around the first bar, opens if and only if neither is blank. */
  lemma LegacyOpens(
      codec: Codec, session: string, cursor: string, limit: int, secret: string, ttl: int, now: int, later: int,
      startedAt: string, exec: string)
    requires Trim(cursor) == startedAt + "|" + exec && '|' !in startedAt
    ensures ParseCursor(codec, session, cursor, limit, secret, ttl, now, later)
            == if Trim(startedAt) == "" || Trim(exec) == "" then Err(BadLegacy) else Ok(Position(startedAt, exec))
  {
    assert Trim(cursor)[|startedAt|] == '|';
    CutExactly(Trim(cursor), '|');
    var (a, b) := Cut(Trim(cursor), '|');
    FirstSeparator(a, b, startedAt, exec, '|');
  }

  /** What a payload must say for a request of this session and limit at this time. */
  predicate Admits(p: Payload, session: string, limit: int, ttl: int, now: int, later: int) {
    && p.version == 1 && p.session == session && p.startedAt != "" && p.exec != ""
    && (p.expiresAt > 0 ==> now <= p.expiresAt)
    && (ttl > 0 && p.issuedAt > 0 ==> later <= p.issuedAt + 2 * ttl)
    && (p.limit > 0 && limit > 0 ==> p.limit == limit)
  }

  /**
  Whatever a client sends that is neither blank nor old opens at a position if and only if it is a body and its
  signature under the secret, one dot between them, and the body says that position for this session, limit and time.
  */
  lemma OpensOnlySigned(
      codec: Codec, session: string, cursor: string, limit: int, secret: string, ttl: int, now: int, later: int,
      at: Position)
    requires Trim(cursor) != "" && '|' !in Trim(cursor)
    ensures ParseCursor(codec, session, cursor, limit, secret, ttl, now, later) == Ok(at)
            <==> Trim(secret) != "" && exists a, b ::
                   && Trim(cursor) == a + "." + b && '.' !in a && '.' !in b
                   && codec.decode(a).Some? && codec.decode(b) == Some(codec.sign(codec.decode(a).value, secret))
                   && codec.unmarshal(codec.decode(a).value).Some?
                   && var p := codec.unmarshal(codec.decode(a).value).value;
                      Admits(p, session, limit, ttl, now, later) && at == Position(p.startedAt, p.exec)
  {
    var parts := Split(Trim(cursor), '.');
    if |parts| == 2 {
      assert parts == [parts[0], parts[1]];
      SplitTwoExactly(Trim(cursor), '.', parts[0], parts[1]);
    }
    forall a, b | Trim(cursor) == a + "." + b && '.' !in a && '.' !in b ensures parts == [a, b] {
      SplitTwoExactly(Trim(cursor), '.', a, b);
    }
  }

  // What a token opens

  lemma UrlSafeMisses(s: string, c: char)
    requires AllUrlSafe(s) && !UrlSafe(c)
    ensures c !in s
  {
  }

  /** A token is in the form that the parser takes for a token: nothing to trim, no `|`, one dot between the parts. */
  lemma TokenForm(codec: Codec, body: Bytes, secret: string)
    requires Lawful(codec)
    ensures var token := codec.encode(body) + "." + codec.encode(codec.sign(body, secret));
            && Trim(token) == token && token != "" && '|' !in token
            && Split(token, '.') == [codec.encode(body), codec.encode(codec.sign(body, secret))]
            && ParseToken(codec, token, secret)
               == match codec.unmarshal(body)
                  case None => Err(BadPayload)
                  case Some(p) => if p.version != 1 then Err(BadVersion) else Ok(p)
  {
    var a, b := codec.encode(body), codec.encode(codec.sign(body, secret));
    assert AllUrlSafe(a) && AllUrlSafe(b);
    var token := a + "." + b;
    UrlSafeMisses(a, '.');
    UrlSafeMisses(b, '.');
    UrlSafeMisses(a, '|');
    UrlSafeMisses(b, '|');
    SplitTwo(a, b, '.');
    assert Trimmed(token) by {
      assert forall i :: 0 <= i < |token| ==> UrlSafe(token[i]) || token[i] == '.';
    }
    TrimFixes(token);
  }

  /** The built token is never blank, and opens exactly as its payload passes the checks; it never reads as a legacy cursor. */
  lemma TokenOpens(
      codec: Codec, session: string, startedAt: string, exec: string, limit: int, secret: string, ttl: int, built: int,
      session': string, limit': int, ttl': int, now: int, later: int)
    requires Lawful(codec) && Trim(startedAt) != "" && Trim(exec) != ""
    requires BuildCursor(codec, session, startedAt, exec, limit, secret, ttl, built).Ok?
    ensures var token := BuildCursor(codec, session, startedAt, exec, limit, secret, ttl, built).value;
            && '|' !in token && token != ""
            && ParseCursor(codec, session', token, limit', secret, ttl', now, later)
               == if session' != session then Err(WrongSession)
                  else if ttl > 0 && built + ttl > 0 && now > built + ttl then Err(Expired)
                  else if ttl' > 0 && built > 0 && later - built > 2 * ttl' then Err(TooOld)
                  else if limit > 0 && limit' > 0 && limit != limit' then Err(WrongLimit)
                  else Ok(Position(startedAt, exec))
  {
    var payload := Payload(1, session, startedAt, exec, limit, built, if ttl > 0 then built + ttl else 0);
    TokenForm(codec, codec.marshal(payload).value, secret);
    assert startedAt != "" && exec != "" by { assert Trim("") == ""; }
  }

  /** The round trip, up to and including the second of expiry. */
  lemma CursorRoundTrip(
      codec: Codec, session: string, startedAt: string, exec: string, limit: int, secret: string, ttl: int,
      built: int, now: int, later: int)
    requires Lawful(codec) && Trim(startedAt) != "" && Trim(exec) != "" && built > 0
    requires BuildCursor(codec, session, startedAt, exec, limit, secret, ttl, built).Ok?
    ensures var parsed := ParseCursor(
                codec, session, BuildCursor(codec, session, startedAt, exec, limit, secret, ttl, built).value,
                limit, secret, ttl, now, later);
            && (parsed == Ok(Position(startedAt, exec))
                <==> ttl <= 0 || (now <= built + ttl && later <= built + 2 * ttl))
            && (parsed.Err? ==> parsed.error == Expired || parsed.error == TooOld)
            && (now <= built + ttl && later <= now + ttl ==> parsed != Err(TooOld))
  {
    TokenOpens(codec, session, startedAt, exec, limit, secret, ttl, built, session, limit, ttl, now, later);
  }

  /** A token fails to be built only for want of a secret or of JSON, and a blank key gives a blank cursor: the first page. */
  lemma BlankKeyRestarts(
      codec: Codec, session: string, startedAt: string, exec: string, limit: int, secret: string, ttl: int,
      built: int, now: int, later: int)
    requires Lawful(codec)
    ensures var token := BuildCursor(codec, session, startedAt, exec, limit, secret, ttl, built);
            && (token == Ok("") <==> Trim(startedAt) == "" || Trim(exec) == "")
            && (token == Ok("") ==>
                  ParseCursor(codec, session, token.value, limit, secret, ttl, now, later) == Ok(Position("", "")))
  {
  }
}
