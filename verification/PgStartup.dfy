/**
 The startup packet the proxy opens a backend session with, and the reader of such packets that the
 proxy itself uses towards its clients (section 55.7 of the PostgreSQL documentation).
 */
module PgStartup {
  import opened Wrappers
  import opened ByteStrings
  import opened PgFrames
  import Utf8

  const PROTOCOL_3_0: nat := 196608
  const SSL_REQUEST: nat := 80877103
  const CANCEL_REQUEST: nat := 80877102
  const MAX_STARTUP_LEN: nat := 10000

  // "user", "database", "application_name", "sproutos-pg-proxy"
  const USER: Bytes := [117, 115, 101, 114]
  const DATABASE: Bytes := [100, 97, 116, 97, 98, 97, 115, 101]
  const APPLICATION_NAME: Bytes := [97, 112, 112, 108, 105, 99, 97, 116, 105, 111, 110, 95, 110, 97, 109, 101]
  const PROXY_NAME: Bytes := [115, 112, 114, 111, 117, 116, 111, 115, 45, 112, 103, 45, 112, 114, 111, 120, 121]

  /** The bytes of the fixed parts of the packet: version, keys, terminators, application name. */
  const FIXED_LEN: nat := 56

  // ---- Writing ----------------------------------------------------------------------------

  function Field(key: Bytes, value: Bytes): Bytes {
    key + [0] + value + [0]
  }

  function Parameters(user: Bytes, database: Bytes): (r: Bytes)
    ensures |r| == FIXED_LEN - 4 + |user| + |database|
  {
    Field(USER, user) + (Field(DATABASE, database) + (Field(APPLICATION_NAME, PROXY_NAME) + [0]))
  }

  function StartupPacket(user: Bytes, database: Bytes): Bytes {
    LengthField(FIXED_LEN + |user| + |database| + 4) + BeBytes(PROTOCOL_3_0, 4) + Parameters(user, database)
  }

  // ---- Reading ----------------------------------------------------------------------------

  datatype Startup =
    | Ssl
    | Cancel(processId: int, secretKey: int)
    | Connect(user: Bytes, database: Bytes, options: map<Bytes, Bytes>)

  datatype StartupError = Closed | TooLong | TooShort | UnsupportedVersion | NotUtf8 | NoUser

  /** The pieces between zero bytes. */
  function SplitNul(s: Bytes): (r: seq<Bytes>)
    ensures |r| > 0
    ensures forall p :: p in r ==> 0 !in p
  {
    if s == [] then [[]]
    else
      var rest := SplitNul(s[1..]);
      if s[0] == 0 then [[]] + rest else [[s[0]] + rest[0]] + rest[1..]
  }

  /** Keys and values in turn, up to the empty key; a repeated key keeps its last value. */
  function CollectPairs(parts: seq<Bytes>, options: map<Bytes, Bytes>): Result<map<Bytes, Bytes>, StartupError> {
    if |parts| < 2 || parts[0] == [] then Ok(options)
    else if !Utf8.Valid(parts[0]) || !Utf8.Valid(parts[1]) then Err(NotUtf8)
    else CollectPairs(parts[2..], options[parts[0] := parts[1]])
  }

  function ParseParameters(body: Bytes): Result<Startup, StartupError> {
    match CollectPairs(SplitNul(body), map[])
    case Err(e) => Err(e)
    case Ok(all) =>
      if USER !in all then Err(NoUser)
      else
        var database := if DATABASE in all then all[DATABASE] else all[USER];
        Ok(Connect(all[USER], database, all - {USER, DATABASE}))
  }

  function ReadStartup(input: Bytes): Result<Startup, StartupError> {
    if |input| < 4 then Err(Closed)
    else
      var length := SignedBe(input[..4]);
      if length < 8 then Err(TooShort)
      else if length - 4 > MAX_STARTUP_LEN then Err(TooLong)
      else if |input| < length then Err(Closed)
      else ReadBody(input[4..length])
  }

  function ReadBody(body: Bytes): Result<Startup, StartupError>
    requires |body| >= 4
  {
    var code := SignedBe(body[..4]);
    if code == SSL_REQUEST then Ok(Ssl)
    else if code == CANCEL_REQUEST then
      if |body| < 12 then Err(TooShort) else Ok(Cancel(SignedBe(body[4..8]), SignedBe(body[8..12])))
    else if code == PROTOCOL_3_0 then ParseParameters(body[4..])
    else Err(UnsupportedVersion)
  }

  // ---- The packet parses back -------------------------------------------------------------

  lemma {:induction false} SplitNulTakes(part: Bytes, rest: Bytes)
    requires 0 !in part
    ensures SplitNul(part + [0] + rest) == [part] + SplitNul(rest)
  {
    if part == [] {
      assert part + [0] + rest == [0] + rest;
    } else {
      assert (part + [0] + rest)[1..] == part[1..] + [0] + rest;
      SplitNulTakes(part[1..], rest);
      assert [part[0]] + part[1..] == part;
    }
  }

  lemma SplitField(key: Bytes, value: Bytes, rest: Bytes)
    requires 0 !in key && 0 !in value
    ensures SplitNul(Field(key, value) + rest) == [key, value] + SplitNul(rest)
  {
    hide SplitNul;
    assert Field(key, value) + rest == key + [0] + (value + [0] + rest);
    SplitNulTakes(key, value + [0] + rest);
    SplitNulTakes(value, rest);
  }

  lemma SplitParameters(user: Bytes, database: Bytes)
    requires 0 !in user && 0 !in database
    ensures SplitNul(Parameters(user, database))
         == [USER, user, DATABASE, database, APPLICATION_NAME, PROXY_NAME, [], []]
  {
    hide Field;
    SplitField(APPLICATION_NAME, PROXY_NAME, [0]);
    SplitField(DATABASE, database, Field(APPLICATION_NAME, PROXY_NAME) + [0]);
    SplitField(USER, user, Field(DATABASE, database) + (Field(APPLICATION_NAME, PROXY_NAME) + [0]));
    assert SplitNul([0]) == [[], []];
  }

  lemma KeysAreText()
    ensures Utf8.Valid(USER) && Utf8.Valid(DATABASE) && Utf8.Valid(APPLICATION_NAME) && Utf8.Valid(PROXY_NAME)
    ensures USER != DATABASE && USER != APPLICATION_NAME && DATABASE != APPLICATION_NAME
  {
    hide Utf8.Valid;
    Utf8.AsciiIsValid(USER);
    Utf8.AsciiIsValid(DATABASE);
    Utf8.AsciiIsValid(APPLICATION_NAME);
    Utf8.AsciiIsValid(PROXY_NAME);
    assert |USER| == 4 && |DATABASE| == 8 && |APPLICATION_NAME| == 16;
  }

  lemma CollectOne(key: Bytes, value: Bytes, rest: seq<Bytes>, options: map<Bytes, Bytes>)
    requires key != [] && Utf8.Valid(key) && Utf8.Valid(value)
    ensures CollectPairs([key, value] + rest, options) == CollectPairs(rest, options[key := value])
  {
    hide Utf8.Valid;
    assert ([key, value] + rest)[2..] == rest;
  }

  lemma CollectEnd(options: map<Bytes, Bytes>)
    ensures CollectPairs([[], []], options) == Ok(options)
  {
  }

  lemma CollectThree(a: Bytes, x: Bytes, b: Bytes, y: Bytes, c: Bytes, z: Bytes)
    requires a != [] && b != [] && c != []
    requires Utf8.Valid(a) && Utf8.Valid(x) && Utf8.Valid(b) && Utf8.Valid(y) && Utf8.Valid(c) && Utf8.Valid(z)
    ensures CollectPairs([a, x, b, y, c, z, [], []], map[]) == Ok(map[a := x][b := y][c := z])
  {
    hide Utf8.Valid, CollectPairs;
    CollectOne(c, z, [[], []], map[a := x][b := y]);
    CollectEnd(map[a := x][b := y][c := z]);
    assert [c, z] + [[], []] == [c, z, [], []];
    CollectOne(b, y, [c, z, [], []], map[a := x]);
    assert [b, y] + [c, z, [], []] == [b, y, c, z, [], []];
    CollectOne(a, x, [b, y, c, z, [], []], map[]);
    assert [a, x] + [b, y, c, z, [], []] == [a, x, b, y, c, z, [], []];
  }

  lemma ParametersParseBack(user: Bytes, database: Bytes)
    requires Utf8.Valid(user) && Utf8.Valid(database) && 0 !in user && 0 !in database
    ensures ParseParameters(Parameters(user, database))
         == Ok(Connect(user, database, map[APPLICATION_NAME := PROXY_NAME]))
  {
    hide Utf8.Valid, SplitNul, CollectPairs, Parameters;
    SplitParameters(user, database);
    KeysAreText();
    CollectThree(USER, user, DATABASE, database, APPLICATION_NAME, PROXY_NAME);
    var all := map[USER := user][DATABASE := database][APPLICATION_NAME := PROXY_NAME];
    assert all - {USER, DATABASE} == map[APPLICATION_NAME := PROXY_NAME];
  }

  ghost predicate NulFreeValues(options: map<Bytes, Bytes>) {
    forall k :: k in options ==> 0 !in options[k]
  }

  lemma {:induction false} CollectedValuesAreNulFree(parts: seq<Bytes>, options: map<Bytes, Bytes>)
    requires NulFreeValues(options) && forall p :: p in parts ==> 0 !in p
    ensures var r := CollectPairs(parts, options); r.Ok? ==> NulFreeValues(r.value)
  {
    if |parts| < 2 {
    } else {
      assert parts[1] in parts;
      CollectedValuesAreNulFree(parts[2..], options[parts[0] := parts[1]]);
    }
  }

  lemma ParsedNamesAreNulFree(body: Bytes)
    ensures var r := ParseParameters(body);
            r.Ok? ==> r.value.Connect? && 0 !in r.value.user && 0 !in r.value.database
  {
    CollectedValuesAreNulFree(SplitNul(body), map[]);
  }

  /** Reading the packet means reading its parameters, when its length is one the reader accepts. */
  lemma PacketBody(user: Bytes, database: Bytes, rest: Bytes)
    ensures ReadStartup(StartupPacket(user, database) + rest)
         == if FIXED_LEN + |user| + |database| <= MAX_STARTUP_LEN then ParseParameters(Parameters(user, database))
            else Err(TooLong)
  {
    hide Parameters, ParseParameters, BeBytes, BeValue;
    var n := FIXED_LEN + |user| + |database|;
    var input := StartupPacket(user, database) + rest;
    assert input[..4] == LengthField(n + 4);
    LengthRoundTrip(if n + 4 <= I32_MAX then n + 4 else I32_MAX);
    if n <= MAX_STARTUP_LEN {
      var body := BeBytes(PROTOCOL_3_0, 4) + Parameters(user, database);
      assert input[4..n + 4] == body;
      assert body[..4] == LengthField(PROTOCOL_3_0);
      LengthRoundTrip(PROTOCOL_3_0);
      assert body[4..] == Parameters(user, database);
    }
  }

  /**
   The packet parses back to the user, the database and the proxy's application name exactly when
   neither value holds a zero byte and the packet is one the reader is willing to read.
   */
  lemma StartupParsesBackIff(user: Bytes, database: Bytes, rest: Bytes)
    requires Utf8.Valid(user) && Utf8.Valid(database)
    ensures ReadStartup(StartupPacket(user, database) + rest)
            == Ok(Connect(user, database, map[APPLICATION_NAME := PROXY_NAME]))
       <==> 0 !in user && 0 !in database && 56 + |user| + |database| <= 10000
  {
    hide Parameters, ParseParameters, StartupPacket, ReadStartup, Utf8.Valid;
    PacketBody(user, database, rest);
    ParsedNamesAreNulFree(Parameters(user, database));
    if 0 !in user && 0 !in database {
      ParametersParseBack(user, database);
    }
  }

  /** What asks the server to cancel a query of the session with that key. */
  function CancelRequest(processId: int, secretKey: int): Bytes
    requires -0x8000_0000 <= processId <= I32_MAX && -0x8000_0000 <= secretKey <= I32_MAX
  {
    WriteSigned(16) + WriteSigned(CANCEL_REQUEST) + WriteSigned(processId) + WriteSigned(secretKey)
  }

  lemma QuarterSlices(a: Bytes, b: Bytes, c: Bytes, d: Bytes, rest: Bytes)
    requires |a| == 4 && |b| == 4 && |c| == 4 && |d| == 4
    ensures var all := a + b + c + d + rest;
            && |all| == 16 + |rest| && all[..4] == a && all[4..16][..4] == b
            && all[4..16][4..8] == c && all[4..16][8..12] == d
  {
  }

  /** A cancellation reads back with the key it was given, and a request for TLS as that. */
  lemma RequestsParseBack(processId: int, secretKey: int, rest: Bytes)
    requires -0x8000_0000 <= processId <= I32_MAX && -0x8000_0000 <= secretKey <= I32_MAX
    ensures ReadStartup(CancelRequest(processId, secretKey) + rest) == Ok(Cancel(processId, secretKey))
    ensures ReadStartup(WriteSigned(8) + WriteSigned(80877103) + rest) == Ok(Ssl)
  {
    hide SignedBe, WriteSigned, ParseParameters;
    SignedRoundTrip(16);
    SignedRoundTrip(80877102);
    SignedRoundTrip(8);
    SignedRoundTrip(80877103);
    SignedRoundTrip(processId);
    SignedRoundTrip(secretKey);
    QuarterSlices(WriteSigned(16), WriteSigned(80877102), WriteSigned(processId), WriteSigned(secretKey), rest);
    var tls := WriteSigned(8) + WriteSigned(80877103) + rest;
    assert tls[..4] == WriteSigned(8) && tls[4..8][..4] == WriteSigned(80877103);
  }

  /** What the packet holds after its length: version 3.0, the three parameters by name, and an empty one. */
  lemma PacketHolds(user: Bytes, database: Bytes)
    requires 0 !in user && 0 !in database
    ensures var packet := StartupPacket(user, database);
            && |packet| >= 8 && packet[4..8] == WriteSigned(0x3_0000)
            && (|packet| <= I32_MAX ==> packet[..4] == WriteSigned(|packet|))
            && SplitNul(packet[8..])
               == [Ascii("user"), user, Ascii("database"), database,
                   Ascii("application_name"), Ascii("sproutos-pg-proxy"), [], []]
  {
    hide SplitNul, BeBytes, Parameters;
    SplitParameters(user, database);
    var packet := StartupPacket(user, database);
    assert packet[4..8] == BeBytes(PROTOCOL_3_0, 4) && packet[8..] == Parameters(user, database);
    assert |packet| == FIXED_LEN + |user| + |database| + 4;
    assert USER == Ascii("user") && DATABASE == Ascii("database");
    assert APPLICATION_NAME == Ascii("application_name") && PROXY_NAME == Ascii("sproutos-pg-proxy");
  }
}
