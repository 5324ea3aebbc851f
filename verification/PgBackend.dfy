/**
 Opening a backend session: authenticate, keep what the client must be told, and drop to the tenant's
 role before the session is handed over. What the backend sends is an arbitrary byte string.
 */
module PgBackend {
  import opened Wrappers
  import opened ByteStrings
  import opened PgFrames
  import PgStartup

  const TAG_AUTH: Byte := 82     // R
  const TAG_READY: Byte := 90    // Z
  const TAG_ERROR: Byte := 69    // E
  const TAG_STATUS: Byte := 83   // S
  const TAG_KEY: Byte := 75      // K
  const TAG_PASSWORD: Byte := 112
  const TAG_QUERY: Byte := 81

  // "SCRAM-SHA-256", "SET ROLE ", "md5"
  const SCRAM: Bytes := [83, 67, 82, 65, 77, 45, 83, 72, 65, 45, 50, 53, 54]
  const SET_ROLE: Bytes := [83, 69, 84, 32, 82, 79, 76, 69, 32]
  const MD5: Bytes := [109, 100, 53]

  datatype BackendKey = BackendKey(processId: int, secretKey: int)

  /** Crashed is an index out of bounds on a message body shorter than its kind requires. */
  datatype Failure =
    | Closed | Refused(message: Option<Bytes>) | Unsupported(kind: int) | Unexpected(tag: Byte) | Sasl | Crashed

  /**
   The password and the cryptography that uses it: the hexadecimal MD5, and the SCRAM client whose
   final message (if the server's first one parses) and check of the server's proof are left open.
   */
  datatype Secrets = Secrets(
    password: Bytes,
    md5Hex: Bytes -> Bytes,
    clientFirst: Bytes,
    clientFinal: Bytes -> Option<Bytes>,
    serverProves: (Bytes, Bytes) -> bool)

  // ---- What the proxy says ----------------------------------------------------------------

  function PasswordMessage(password: Bytes): Bytes {
    Message(TAG_PASSWORD, password + [0])
  }

  function SaltedPassword(e: Secrets, salt: Bytes): Bytes {
    MD5 + e.md5Hex(e.md5Hex(e.password) + salt)
  }

  function SaslInitial(message: Bytes): Bytes {
    Message(TAG_PASSWORD, SCRAM + [0] + LengthField(|message|) + message)
  }

  function RoleQuery(role: Bytes): Bytes {
    Message(TAG_QUERY, SET_ROLE + role + [0])
  }

  function ParseBackendKey(body: Bytes): Option<BackendKey> {
    if |body| < 8 then None else Some(BackendKey(SignedBe(body[..4]), SignedBe(body[4..8])))
  }

  /** The human-readable field of an ErrorResponse: the first one whose type is M. */
  function ErrorMessage(body: Bytes): Option<Bytes> {
    MessageField(PgStartup.SplitNul(body))
  }

  function MessageField(fields: seq<Bytes>): Option<Bytes> {
    if fields == [] then None
    else if fields[0] != [] && fields[0][0] == 77 then Some(fields[0][1..])
    else MessageField(fields[1..])
  }

  // ---- The exchange, message by message ---------------------------------------------------

  datatype Session = Session(parameters: seq<Frame>, key: Option<BackendKey>, sent: Bytes)

  datatype Authenticated = Authenticated(session: Session, rest: seq<Frame>)

  function AuthKind(f: Frame): int
    requires |f.body| >= 4
  {
    SignedBe(f.body[..4])
  }

  /** The payload of the next message, which must be an authentication message of this kind. */
  function AuthPayload(frames: seq<Frame>, kind: int): Result<Bytes, Failure> {
    if frames == [] then Err(Closed)
    else if frames[0].tag == TAG_ERROR then Err(Refused(ErrorMessage(frames[0].body)))
    else if frames[0].tag != TAG_AUTH then Err(Unexpected(frames[0].tag))
    else if |frames[0].body| < 4 then Err(Crashed)
    else if AuthKind(frames[0]) != kind then Err(Unsupported(AuthKind(frames[0])))
    else Ok(frames[0].body[4..])
  }

  /** The SCRAM exchange: two messages from the server; the result is what was sent. */
  function ScramExchange(frames: seq<Frame>, mechanisms: Bytes, e: Secrets): (r: Result<Bytes, Failure>)
    ensures r.Ok? ==> |frames| >= 2
  {
    if !Contains(mechanisms, SCRAM) then Err(Unsupported(10))
    else
      match AuthPayload(frames, 11)
      case Err(x) => Err(x)
      case Ok(serverFirst) =>
        match e.clientFinal(serverFirst)
        case None => Err(Sasl)
        case Some(final) =>
          match AuthPayload(frames[1..], 12)
          case Err(x) => Err(x)
          case Ok(serverFinal) =>
            if e.serverProves(serverFirst, serverFinal)
            then Ok(SaslInitial(e.clientFirst) + Message(TAG_PASSWORD, final))
            else Err(Sasl)
  }

  function Authenticate(frames: seq<Frame>, e: Secrets, s: Session): Result<Authenticated, Failure>
    decreases |frames|
  {
    if frames == [] then Err(Closed)
    else
      var f, rest := frames[0], frames[1..];
      if f.tag == TAG_AUTH then
        if |f.body| < 4 then Err(Crashed)
        else if AuthKind(f) == 0 then Authenticate(rest, e, s)
        else if AuthKind(f) == 3 then Authenticate(rest, e, s.(sent := s.sent + PasswordMessage(e.password)))
        else if AuthKind(f) == 5 then
          if |f.body| < 8 then Err(Crashed)
          else Authenticate(rest, e, s.(sent := s.sent + PasswordMessage(SaltedPassword(e, f.body[4..8]))))
        else if AuthKind(f) == 10 then
          match ScramExchange(rest, f.body[4..], e)
          case Err(x) => Err(x)
          case Ok(said) => Authenticate(rest[2..], e, s.(sent := s.sent + said))
        else Err(Unsupported(AuthKind(f)))
      else if f.tag == TAG_READY then Ok(Authenticated(s, rest))
      else if f.tag == TAG_ERROR then Err(Refused(ErrorMessage(f.body)))
      else if f.tag == TAG_STATUS then Authenticate(rest, e, s.(parameters := s.parameters + [f]))
      else if f.tag == TAG_KEY then Authenticate(rest, e, s.(key := ParseBackendKey(f.body)))
      else Authenticate(rest, e, s)
  }

  /** The answer to SET ROLE: whatever follows its ReadyForQuery. */
  function RoleReply(frames: seq<Frame>): Result<seq<Frame>, Failure> {
    if frames == [] then Err(Closed)
    else if frames[0].tag == TAG_READY then Ok(frames[1..])
    else if frames[0].tag == TAG_ERROR then Err(Refused(ErrorMessage(frames[0].body)))
    else RoleReply(frames[1..])
  }

  /** A session as it is handed over: what to tell the client, the cancellation pair, what is unread. */
  datatype Backend = Backend(handshake: Bytes, key: Option<BackendKey>, rest: seq<Frame>, sent: Bytes)

  function Connected(input: Bytes, user: Bytes, database: Bytes, role: Bytes, e: Secrets): Result<Backend, Failure> {
    match Authenticate(Frames(input), e, Session([], None, PgStartup.StartupPacket(user, database)))
    case Err(x) => Err(x)
    case Ok(a) =>
      match RoleReply(a.rest)
      case Err(x) => Err(x)
      case Ok(rest) =>
        Ok(Backend(RawAll(a.session.parameters), a.session.key, rest, a.session.sent + RoleQuery(role)))
  }

  // ---- The exchange, byte by byte ---------------------------------------------------------

  /** One connection to the cluster: the bytes it will still deliver, the bytes sent to it. */
  class Connection {
    var input: Bytes
    var sent: Bytes

    constructor (delivers: Bytes)
      ensures input == delivers && sent == []
    {
      input, sent := delivers, [];
    }

    method Write(bytes: Bytes)
      modifies this`sent
      ensures sent == old(sent) + bytes
    {
      sent := sent + bytes;
    }

    /** Read a tag, a length, and the body the length announces. */
    method ReadFrame() returns (r: Option<Frame>)
      modifies this`input
      ensures r.Some? ==> Frames(old(input)) == [r.value] + Frames(input) && Leftover(input) == Leftover(old(input))
      ensures r.Some? ==> |input| < |old(input)|
      ensures r.None? <==> Frames(old(input)) == []
    {
      if |input| < 5 {
        return None;
      }
      var tag, length := input[0], input[1..5];
      var remaining := Announced(length);
      if |input| < 5 + remaining {
        return None;
      }
      r := Some(Frame(tag, length, input[5..5 + remaining]));
      input := input[5 + remaining..];
    }

    method ReadAuthPayload(kind: int) returns (r: Result<Bytes, Failure>)
      modifies this`input
      ensures r == AuthPayload(Frames(old(input)), kind)
      ensures r.Ok? ==> |Frames(old(input))| > 0 && Frames(input) == Frames(old(input))[1..]
      ensures r.Ok? ==> Leftover(input) == Leftover(old(input)) && |input| < |old(input)|
    {
      hide Frames, Leftover, ErrorMessage, SignedBe;
      var frame := ReadFrame();
      if frame.None? {
        return Err(Closed);
      }
      var f := frame.value;
      if f.tag == TAG_ERROR {
        return Err(Refused(ErrorMessage(f.body)));
      }
      if f.tag != TAG_AUTH {
        return Err(Unexpected(f.tag));
      }
      if |f.body| < 4 {
        return Err(Crashed);
      }
      if AuthKind(f) != kind {
        return Err(Unsupported(AuthKind(f)));
      }
      return Ok(f.body[4..]);
    }

    method RunScram(mechanisms: Bytes, e: Secrets) returns (r: Result<(), Failure>)
      modifies this
      ensures var spec := ScramExchange(Frames(old(input)), mechanisms, e);
              match spec
              case Err(x) => r == Err(x)
              case Ok(said) =>
                && r == Ok(())
                && sent == old(sent) + said
                && Frames(input) == Frames(old(input))[2..]
                && Leftover(input) == Leftover(old(input))
                && |input| < |old(input)|
    {
      hide Frames, Leftover, AuthPayload, Message, SaslInitial, Contains;
      if !Contains(mechanisms, SCRAM) {
        return Err(Unsupported(10));
      }
      Write(SaslInitial(e.clientFirst));
      var serverFirst := ReadAuthPayload(11);
      if serverFirst.Err? {
        return Err(serverFirst.error);
      }
      var final := e.clientFinal(serverFirst.value);
      if final.None? {
        return Err(Sasl);
      }
      Write(Message(TAG_PASSWORD, final.value));
      var serverFinal := ReadAuthPayload(12);
      if serverFinal.Err? {
        return Err(serverFinal.error);
      }
      if !e.serverProves(serverFirst.value, serverFinal.value) {
        return Err(Sasl);
      }
      return Ok(());
    }

    method CompleteAuthentication(e: Secrets) returns (r: Result<(Bytes, Option<BackendKey>), Failure>)
      modifies this
      ensures match Authenticate(Frames(old(input)), e, Session([], None, old(sent)))
              case Err(x) => r == Err(x)
              case Ok(a) =>
                && r == Ok((RawAll(a.session.parameters), a.session.key))
                && sent == a.session.sent
                && Frames(input) == a.rest
                && Leftover(input) == Leftover(old(input))
    {
      hide Frames, Leftover, Raw, RawAll, ScramExchange, PasswordMessage, SaltedPassword;
      hide ErrorMessage, ParseBackendKey, SignedBe;
      var handshake: Bytes := [];
      var key: Option<BackendKey> := None;
      ghost var parameters: seq<Frame> := [];
      ghost var spec := Authenticate(Frames(input), e, Session([], None, sent));
      NothingRaw();
      while true
        invariant spec == Authenticate(Frames(input), e, Session(parameters, key, sent))
        invariant handshake == RawAll(parameters)
        invariant Leftover(input) == Leftover(old(input))
        decreases |input|
      {
        ghost var frames := Frames(input);
        var frame := ReadFrame();
        if frame.None? {
          return Err(Closed);
        }
        var f := frame.value;
        assert frames[0] == f && frames[1..] == Frames(input);
        if f.tag == TAG_AUTH {
          if |f.body| < 4 {
            return Err(Crashed);
          }
          var kind := AuthKind(f);
          if kind == 0 {
          } else if kind == 3 {
            Write(PasswordMessage(e.password));
          } else if kind == 5 {
            if |f.body| < 8 {
              return Err(Crashed);
            }
            Write(PasswordMessage(SaltedPassword(e, f.body[4..8])));
          } else if kind == 10 {
            var done := RunScram(f.body[4..], e);
            if done.Err? {
              return Err(done.error);
            }
          } else {
            return Err(Unsupported(kind));
          }
        } else if f.tag == TAG_READY {
          return Ok((handshake, key));
        } else if f.tag == TAG_ERROR {
          return Err(Refused(ErrorMessage(f.body)));
        } else if f.tag == TAG_STATUS {
          OneMoreRaw(parameters, f);
          handshake := handshake + [f.tag] + f.length + f.body;
          parameters := parameters + [f];
        } else if f.tag == TAG_KEY {
          key := ParseBackendKey(f.body);
        }
      }
    }

    method SetRole(role: Bytes) returns (r: Result<(), Failure>)
      modifies this
      ensures sent == old(sent) + RoleQuery(role)
      ensures exists query ::
                sent == old(sent) + query && IsMessage(query, 'Q' as int, Ascii("SET ROLE ") + role + [0])
      ensures match RoleReply(Frames(old(input)))
              case Err(x) => r == Err(x)
              case Ok(rest) => r == Ok(()) && Frames(input) == rest && Leftover(input) == Leftover(old(input))
    {
      hide Frames, Leftover, ErrorMessage, RoleQuery, IsMessage;
      RoleQueryAsks(role);
      Write(RoleQuery(role));
      while true
        invariant RoleReply(Frames(old(input))) == RoleReply(Frames(input))
        invariant sent == old(sent) + RoleQuery(role)
        invariant Leftover(input) == Leftover(old(input))
        decreases |input|
      {
        ghost var frames := Frames(input);
        var frame := ReadFrame();
        if frame.None? {
          return Err(Closed);
        }
        var f := frame.value;
        assert frames[0] == f && frames[1..] == Frames(input);
        if f.tag == TAG_READY {
          return Ok(());
        }
        if f.tag == TAG_ERROR {
          return Err(Refused(ErrorMessage(f.body)));
        }
      }
    }

    /** Connect, authenticate, and drop to the tenant's role; the unread input is what rest says. */
    method Connect(user: Bytes, database: Bytes, role: Bytes, e: Secrets)
      returns (r: Result<(Bytes, Option<BackendKey>), Failure>)
      requires sent == []
      modifies this
      ensures match Connected(old(input), user, database, role, e)
              case Err(x) => r == Err(x)
              case Ok(b) =>
                && r == Ok((b.handshake, b.key))
                && sent == b.sent
                && input == RawAll(b.rest) + Leftover(old(input))
                && exists earlier, query ::
                     sent == earlier + query && IsMessage(query, 'Q' as int, Ascii("SET ROLE ") + role + [0])
    {
      hide Authenticate, RoleReply, Frames, Leftover, RawAll, PgStartup.StartupPacket, RoleQuery, IsMessage;
      Write(PgStartup.StartupPacket(user, database));
      assert sent == PgStartup.StartupPacket(user, database);
      var authenticated := CompleteAuthentication(e);
      if authenticated.Err? {
        return Err(authenticated.error);
      }
      ghost var earlier := sent;
      var role' := SetRole(role);
      if role'.Err? {
        return Err(role'.error);
      }
      FramesCover(input);
      return Ok(authenticated.value);
    }
  }

  lemma NothingRaw()
    ensures RawAll([]) == []
  {
  }

  lemma OneMoreRaw(frames: seq<Frame>, f: Frame)
    ensures RawAll(frames + [f]) == RawAll(frames) + [f.tag] + f.length + f.body
  {
    RawAllAppends(frames, [f]);
    assert RawAll([f]) == Raw(f) + RawAll([]);
  }

  // ---- What a successful connection means -------------------------------------------------

  /** The first ReadyForQuery is message n, and no ErrorResponse comes before it. */
  ghost predicate Ready(frames: seq<Frame>, n: nat) {
    && n < |frames|
    && frames[n].tag == 'Z' as int
    && forall i :: 0 <= i < n ==> frames[i].tag != 'Z' as int && frames[i].tag != 'E' as int
  }

  /** Two phases, each reaching ReadyForQuery before any ErrorResponse. */
  ghost predicate BothReady(frames: seq<Frame>, n: nat, m: nat) {
    Ready(frames, n) && Ready(frames[n + 1..], m)
  }

  /** The ParameterStatus messages among these, in order. */
  function Statuses(frames: seq<Frame>): (r: seq<Frame>)
    ensures forall f :: f in r ==> f in frames && f.tag == 'S' as int
  {
    if frames == [] then []
    else if frames[0].tag == 'S' as int then [frames[0]] + Statuses(frames[1..])
    else Statuses(frames[1..])
  }

  /** The cancellation pair the last BackendKeyData gave. */
  function LastKey(frames: seq<Frame>, before: Option<BackendKey>): Option<BackendKey> {
    if frames == [] then before
    else LastKey(frames[1..], if frames[0].tag == 'K' as int then ParseBackendKey(frames[0].body) else before)
  }

  ghost predicate AuthenticatedAt(frames: seq<Frame>, s: Session, a: Authenticated, n: nat) {
    && Ready(frames, n)
    && a.rest == frames[n + 1..]
    && a.session.parameters == s.parameters + Statuses(frames[..n])
    && a.session.key == LastKey(frames[..n], s.key)
  }

  /** One message of no consequence for the outcome, or with its effect on the session. */
  lemma ShapeStep(frames: seq<Frame>, s: Session, t: Session, a: Authenticated, n: nat)
    requires frames != [] && frames[0].tag != TAG_READY && frames[0].tag != TAG_ERROR
    requires t.parameters == s.parameters + (if frames[0].tag == TAG_STATUS then [frames[0]] else [])
    requires t.key == if frames[0].tag == TAG_KEY then ParseBackendKey(frames[0].body) else s.key
    requires AuthenticatedAt(frames[1..], t, a, n)
    ensures AuthenticatedAt(frames, s, a, n + 1)
  {
    assert frames[..n + 1][1..] == frames[1..][..n];
    assert frames[1..][n + 1..] == frames[n + 2..];
    forall i | 0 <= i < n + 1
      ensures frames[i].tag != TAG_READY && frames[i].tag != TAG_ERROR
    {
      assert i > 0 ==> frames[i] == frames[1..][i - 1];
    }
    assert frames[n + 1] == frames[1..][n];
  }

  /**
   Authentication ends at the first ReadyForQuery, before any ErrorResponse, having kept exactly the
   ParameterStatus messages in order and the last cancellation pair.
   */
  lemma {:induction false} AuthenticationShape(frames: seq<Frame>, e: Secrets, s: Session) returns (n: nat)
    requires Authenticate(frames, e, s).Ok?
    ensures AuthenticatedAt(frames, s, Authenticate(frames, e, s).value, n)
    decreases |frames|
  {
    hide Ready, Statuses, LastKey, ScramExchange, PasswordMessage, SaltedPassword, SignedBe;
    hide ParseBackendKey, AuthenticatedAt;
    var f, rest := frames[0], frames[1..];
    var a := Authenticate(frames, e, s).value;
    if f.tag == TAG_READY {
      n := 0;
      ReadyAtOnce(frames, s, a);
    } else if f.tag == TAG_AUTH && AuthKind(f) == 10 {
      var said := ScramExchange(rest, f.body[4..], e).value;
      ScramReadsAuth(rest, f.body[4..], e);
      var t := s.(sent := s.sent + said);
      n := AuthenticationShape(rest[2..], e, t);
      assert rest[2..] == rest[1..][1..];
      ShapeStep(rest[1..], t, t, a, n);
      ShapeStep(rest, t, t, a, n + 1);
      ShapeStep(frames, s, t, a, n + 2);
      n := n + 3;
    } else {
      var t := Next(f, e, s);
      n := AuthenticationShape(rest, e, t);
      ShapeStep(frames, s, t, a, n);
      n := n + 1;
    }
  }

  /** The effect of one message other than a SASL request on the session. */
  function Next(f: Frame, e: Secrets, s: Session): Session {
    if f.tag == TAG_AUTH && |f.body| >= 4 && AuthKind(f) == 3 then
      s.(sent := s.sent + PasswordMessage(e.password))
    else if f.tag == TAG_AUTH && |f.body| >= 8 && AuthKind(f) == 5 then
      s.(sent := s.sent + PasswordMessage(SaltedPassword(e, f.body[4..8])))
    else if f.tag == TAG_STATUS then s.(parameters := s.parameters + [f])
    else if f.tag == TAG_KEY then s.(key := ParseBackendKey(f.body))
    else s
  }

  lemma ReadyAtOnce(frames: seq<Frame>, s: Session, a: Authenticated)
    requires frames != [] && frames[0].tag == TAG_READY && a == Authenticated(s, frames[1..])
    ensures AuthenticatedAt(frames, s, a, 0)
  {
    assert frames[..0] == [];
  }

  lemma ScramReadsAuth(frames: seq<Frame>, mechanisms: Bytes, e: Secrets)
    requires ScramExchange(frames, mechanisms, e).Ok?
    ensures |frames| >= 2 && frames[0].tag == TAG_AUTH && frames[1].tag == TAG_AUTH
    ensures |frames[0].body| >= 4 && |frames[1].body| >= 4 && AuthKind(frames[0]) == 11 && AuthKind(frames[1]) == 12
    ensures e.serverProves(frames[0].body[4..], frames[1].body[4..])
  {
    hide SignedBe, Contains;
  }

  predicate SaslRequest(f: Frame) {
    f.tag == TAG_AUTH && |f.body| >= 4 && AuthKind(f) == 10
  }

  /** The two messages after a SASL request are the server's, and its proof of the password is good. */
  ghost predicate Proved(frames: seq<Frame>, i: nat, e: Secrets) {
    && i + 2 < |frames|
    && |frames[i + 1].body| >= 4 && |frames[i + 2].body| >= 4
    && e.serverProves(frames[i + 1].body[4..], frames[i + 2].body[4..])
  }

  /** No session comes out of a SASL exchange in which the server did not prove itself. */
  lemma {:induction false} EverySaslExchangeIsMutual(frames: seq<Frame>, e: Secrets, s: Session, n: nat, i: nat)
    requires Authenticate(frames, e, s).Ok? && Ready(frames, n)
    requires i < n && SaslRequest(frames[i])
    ensures Proved(frames, i, e)
    decreases |frames|
  {
    hide ScramExchange, PasswordMessage, SaltedPassword, SignedBe, ParseBackendKey;
    var f, rest := frames[0], frames[1..];
    if SaslRequest(f) {
      ScramReadsAuth(rest, f.body[4..], e);
      if i > 0 {
        assert frames[1] == rest[0] && frames[2] == rest[1];
        assert n > 2 && i > 2;
        assert rest[2..] == frames[3..];
        var said := ScramExchange(rest, f.body[4..], e).value;
        EverySaslExchangeIsMutual(rest[2..], e, s.(sent := s.sent + said), n - 3, i - 3);
      }
    } else {
      EverySaslExchangeIsMutual(rest, e, Next(f, e, s), n - 1, i - 1);
    }
  }

  lemma {:induction false} ReadyIsUnique(frames: seq<Frame>, n: nat, m: nat)
    requires Ready(frames, n) && Ready(frames, m)
    ensures n == m
  {
  }

  /** The role query is answered well exactly when a ReadyForQuery comes before any ErrorResponse. */
  lemma {:induction false} RoleReplyMeans(frames: seq<Frame>)
    ensures RoleReply(frames).Ok? <==> exists n: nat :: Ready(frames, n)
    ensures forall n: nat :: Ready(frames, n) ==> RoleReply(frames) == Ok(frames[n + 1..])
  {
    if frames == [] {
    } else if frames[0].tag == TAG_READY {
      assert Ready(frames, 0);
    } else if frames[0].tag != TAG_ERROR {
      RoleReplyMeans(frames[1..]);
      forall n: nat | Ready(frames, n)
        ensures Ready(frames[1..], n - 1) && frames[1..][n..] == frames[n + 1..]
      {
      }
      if n: nat :| Ready(frames[1..], n) {
        assert frames[n + 1] == frames[1..][n];
        assert Ready(frames, n + 1);
      }
    }
  }

  /** What the caller of a successful connect may rely on. */
  ghost predicate HandedOver(frames: seq<Frame>, b: Backend, n: nat, m: nat) {
    && BothReady(frames, n, m)
    && Frames(b.handshake) == Statuses(frames[..n])
    && Leftover(b.handshake) == []
    && b.key == LastKey(frames[..n], None)
    && b.rest == frames[n + 1..][m + 1..]
  }

  /**
   Connect succeeds only when authentication reached ReadyForQuery and then the SET ROLE query did,
   neither with an ErrorResponse; the handshake re-parses to exactly the ParameterStatus messages of
   the authentication phase, in order, and nothing after the role's ReadyForQuery was consumed.
   */
  lemma ConnectIsSafe(input: Bytes, user: Bytes, database: Bytes, role: Bytes, e: Secrets)
    returns (n: nat, m: nat)
    requires Connected(input, user, database, role, e).Ok?
    ensures HandedOver(Frames(input), Connected(input, user, database, role, e).value, n, m)
  {
    hide Authenticate, RoleReply, Frames, Leftover, Ready, Statuses, LastKey;
    hide PgStartup.StartupPacket, RawAll, WellFramed;
    var frames := Frames(input);
    var start := Session([], None, PgStartup.StartupPacket(user, database));
    n := AuthenticationShape(frames, e, start);
    ReadyFits(frames, n);
    var a := Authenticate(frames, e, start).value;
    RoleReplyMeans(a.rest);
    m :| Ready(a.rest, m);
    var kept := Statuses(frames[..n]);
    assert a.session.parameters == kept;
    FramesInvert(kept, []);
    NoFrames();
    assert RawAll(kept) + [] == RawAll(kept);
  }

  lemma NoFrames()
    ensures Frames([]) == [] && Leftover([]) == []
  {
  }

  lemma ReadyFits(frames: seq<Frame>, n: nat)
    requires Ready(frames, n)
    ensures n < |frames|
  {
  }

  // ---- When it succeeds -------------------------------------------------------------------

  /** Message i is an authentication message of this kind. */
  predicate OfKind(frames: seq<Frame>, i: int, kind: int) {
    && 0 <= i < |frames| && frames[i].tag == 'R' as int && |frames[i].body| >= 4
    && AuthKind(frames[i]) == kind
  }

  /** A SASL request that offers SCRAM, is followed by the server's two messages, and ends well. */
  predicate SaslSucceeds(frames: seq<Frame>, i: nat, e: Secrets) {
    && OfKind(frames, i, 10) && OfKind(frames, i + 1, 11) && OfKind(frames, i + 2, 12)
    && Contains(frames[i].body[4..], SCRAM)
    && e.clientFinal(frames[i + 1].body[4..]).Some?
    && e.serverProves(frames[i + 1].body[4..], frames[i + 2].body[4..])
  }

  /** An authentication message the proxy can answer where it stands; 11 and 12 only inside an exchange. */
  predicate Answerable(frames: seq<Frame>, i: nat, e: Secrets)
    requires i < |frames|
  {
    frames[i].tag == 'R' as int ==>
      || OfKind(frames, i, 0) || OfKind(frames, i, 3)
      || (OfKind(frames, i, 5) && |frames[i].body| >= 8)
      || SaslSucceeds(frames, i, e)
      || (OfKind(frames, i, 11) && OfKind(frames, i - 1, 10))
      || (OfKind(frames, i, 12) && OfKind(frames, i - 2, 10))
  }

  ghost predicate AllAnswerable(frames: seq<Frame>, n: nat, e: Secrets)
    requires n <= |frames|
  {
    forall i :: 0 <= i < n ==> Answerable(frames, i, e)
  }

  /** Message n is the first ReadyForQuery, without an error before it, and all before it can be answered. */
  ghost predicate Authenticates(frames: seq<Frame>, n: nat, e: Secrets) {
    Ready(frames, n) && AllAnswerable(frames, n, e)
  }

  lemma ScramSucceedsIff(frames: seq<Frame>, e: Secrets)
    requires OfKind(frames, 0, 10)
    ensures ScramExchange(frames[1..], frames[0].body[4..], e).Ok? <==> SaslSucceeds(frames, 0, e)
  {
    hide SignedBe, Contains, ErrorMessage;
    if |frames| > 2 {
      assert frames[1..][0] == frames[1] && frames[1..][1..][0] == frames[2];
    }
  }

  /** What can be answered does not depend on messages before the last exchange. */
  lemma AnswerableLater(frames: seq<Frame>, skip: nat, i: nat, e: Secrets)
    requires 0 < skip && skip + i < |frames|
    requires !OfKind(frames, skip - 1, 10) && !OfKind(frames, skip - 2, 10)
    ensures Answerable(frames, skip + i, e) <==> Answerable(frames[skip..], i, e)
  {
    hide SignedBe, Contains;
    var later := frames[skip..];
    assert forall k, kind :: 0 <= k ==> (OfKind(later, k, kind) <==> OfKind(frames, skip + k, kind));
    assert SaslSucceeds(frames, skip + i, e) <==> SaslSucceeds(later, i, e) by {
      assert forall k :: 0 <= k < |later| ==> later[k] == frames[skip + k];
    }
  }

  lemma AuthenticatesLater(frames: seq<Frame>, skip: nat, n: nat, e: Secrets)
    requires 0 < skip <= n < |frames|
    requires !OfKind(frames, skip - 1, 10) && !OfKind(frames, skip - 2, 10)
    requires forall i :: 0 <= i < skip ==> frames[i].tag != TAG_READY && frames[i].tag != TAG_ERROR
    requires AllAnswerable(frames, skip, e)
    ensures Authenticates(frames, n, e) <==> Authenticates(frames[skip..], n - skip, e)
  {
    hide Answerable, OfKind;
    var later := frames[skip..];
    forall i: nat | skip <= i < n
      ensures Answerable(frames, i, e) <==> Answerable(later, i - skip, e)
      ensures later[i - skip] == frames[i]
    {
      AnswerableLater(frames, skip, i - skip, e);
    }
    if Authenticates(later, n - skip, e) {
      forall i | 0 <= i < n
        ensures Answerable(frames, i, e) && frames[i].tag != TAG_READY && frames[i].tag != TAG_ERROR
      {
        if i >= skip {
          assert Answerable(later, i - skip, e) && later[i - skip] == frames[i];
        }
      }
    }
    if Authenticates(frames, n, e) {
      forall i | 0 <= i < n - skip
        ensures Answerable(later, i, e) && later[i].tag != TAG_READY && later[i].tag != TAG_ERROR
      {
        assert Answerable(frames, skip + i, e) && later[i] == frames[skip + i];
      }
    }
  }

  /**
   Authentication succeeds exactly when a ReadyForQuery comes before any ErrorResponse and every
   authentication message before it can be answered.
   */
  lemma {:induction false} AuthenticatesIff(frames: seq<Frame>, e: Secrets, s: Session)
    ensures Authenticate(frames, e, s).Ok? <==> exists n: nat :: Authenticates(frames, n, e)
    decreases |frames|
  {
    hide PasswordMessage, SaltedPassword, SignedBe, ParseBackendKey, ErrorMessage, ScramExchange, Contains;
    if frames == [] {
    } else if frames[0].tag == TAG_READY {
      assert Authenticates(frames, 0, e);
    } else if frames[0].tag == TAG_ERROR {
      assert forall n: nat :: !Ready(frames, n);
    } else if OfKind(frames, 0, 10) {
      ScramSucceedsIff(frames, e);
      if SaslSucceeds(frames, 0, e) {
        ExchangeIsAnswerable(frames, e);
        StepIff(frames, 3, e);
        assert frames[1..][2..] == frames[3..];
        var said := ScramExchange(frames[1..], frames[0].body[4..], e).value;
        AuthenticatesIff(frames[3..], e, s.(sent := s.sent + said));
      } else {
        FirstMustBeAnswerable(frames, e);
      }
    } else if Answerable(frames, 0, e) {
      StepIff(frames, 1, e);
      AuthenticatesIff(frames[1..], e, Next(frames[0], e, s));
    } else {
      FirstMustBeAnswerable(frames, e);
    }
  }

  lemma FirstMustBeAnswerable(frames: seq<Frame>, e: Secrets)
    requires frames != [] && frames[0].tag == TAG_AUTH && !Answerable(frames, 0, e)
    ensures forall n: nat :: !Authenticates(frames, n, e)
  {
    hide Answerable;
    assert forall n: nat :: Ready(frames, n) ==> n > 0;
  }

  lemma ExchangeIsAnswerable(frames: seq<Frame>, e: Secrets)
    requires SaslSucceeds(frames, 0, e)
    ensures |frames| >= 3 && AllAnswerable(frames, 3, e)
    ensures forall i :: 0 <= i < 3 ==> frames[i].tag == TAG_AUTH
    ensures !OfKind(frames, 2, 10) && !OfKind(frames, 1, 10)
  {
    hide SignedBe, Contains;
    forall i | 0 <= i < 3
      ensures frames[i].tag == TAG_AUTH && Answerable(frames, i, e)
    {
      assert i == 0 || i == 1 || i == 2;
    }
  }

  /** The messages up to the next point between exchanges can be taken off. */
  lemma StepIff(frames: seq<Frame>, skip: nat, e: Secrets)
    requires 0 < skip <= |frames| && AllAnswerable(frames, skip, e)
    requires !OfKind(frames, skip - 1, 10) && !OfKind(frames, skip - 2, 10)
    requires forall i :: 0 <= i < skip ==> frames[i].tag != TAG_READY && frames[i].tag != TAG_ERROR
    ensures (exists n: nat :: Authenticates(frames, n, e)) <==> (exists n: nat :: Authenticates(frames[skip..], n, e))
  {
    hide AllAnswerable, OfKind;
    if n: nat :| Authenticates(frames, n, e) {
      assert n >= skip;
      AuthenticatesLater(frames, skip, n, e);
    }
    if n: nat :| Authenticates(frames[skip..], n, e) {
      AuthenticatesLater(frames, skip, skip + n, e);
    }
  }

  /** Connect succeeds exactly when authentication does and SET ROLE is answered before an error. */
  lemma ConnectSucceedsIff(input: Bytes, user: Bytes, database: Bytes, role: Bytes, e: Secrets)
    ensures Connected(input, user, database, role, e).Ok?
       <==> exists n: nat, m: nat :: BothReady(Frames(input), n, m) && AllAnswerable(Frames(input), n, e)
  {
    hide Authenticate, RoleReply, Frames, PgStartup.StartupPacket, RawAll, AllAnswerable;
    var frames := Frames(input);
    var start := Session([], None, PgStartup.StartupPacket(user, database));
    AuthenticatesIff(frames, e, start);
    if Connected(input, user, database, role, e).Ok? {
      var n, m := ConnectIsSafe(input, user, database, role, e);
      var k: nat :| Authenticates(frames, k, e);
      ReadyIsUnique(frames, k, n);
      assert BothReady(frames, n, m) && AllAnswerable(frames, n, e);
    }
    if n: nat, m: nat :| BothReady(frames, n, m) && AllAnswerable(frames, n, e) {
      assert Authenticates(frames, n, e);
      var k := AuthenticationShape(frames, e, start);
      ReadyIsUnique(frames, k, n);
      RoleReplyMeans(frames[n + 1..]);
    }
  }

  // ---- What is sent -----------------------------------------------------------------------

  /** A message of this tag and body whose length fits its field is one message for its reader. */
  ghost predicate IsMessage(bytes: Bytes, tag: Byte, body: Bytes) {
    |body| + 4 <= I32_MAX ==>
      Frames(bytes) == [Frame(tag, WriteSigned(|body| + 4), body)] && Leftover(bytes) == []
  }

  lemma MessageIsMessage(tag: Byte, body: Bytes)
    ensures IsMessage(Message(tag, body), tag, body)
  {
    hide Frames, Leftover, Message;
    if |body| + 4 <= I32_MAX {
      MessageIsFrame(tag, body);
    }
  }

  /** The role query is one message: the command, the role and a zero byte. */
  lemma RoleQueryAsks(role: Bytes)
    ensures IsMessage(RoleQuery(role), 'Q' as int, Ascii("SET ROLE ") + role + [0])
  {
    assert SET_ROLE == Ascii("SET ROLE ");
    MessageIsMessage('Q' as int, Ascii("SET ROLE ") + role + [0]);
  }

  /** What the proxy owes for a message of the backend, if it asks for something. */
  function OwedFor(f: Frame, e: Secrets): Option<Bytes> {
    if f.tag != 'R' as int || |f.body| < 4 then None
    else
      match AuthKind(f)
      case 3 => Some(e.password + [0])
      case 5 =>
        if |f.body| < 8 then None
        else Some(Ascii("md5") + e.md5Hex(e.md5Hex(e.password) + f.body[4..8]) + [0])
      case 10 => Some(Ascii("SCRAM-SHA-256") + [0] + LengthField(|e.clientFirst|) + e.clientFirst)
      case 11 => e.clientFinal(f.body[4..])
      case _ => None
  }

  /** Everything owed for these messages, in order, each in a message of tag `p`. */
  function Owed(frames: seq<Frame>, e: Secrets): seq<Frame> {
    if frames == [] then []
    else
      (match OwedFor(frames[0], e)
       case None => []
       case Some(body) => [Frame('p' as int, LengthField(|body| + 4), body)])
      + Owed(frames[1..], e)
  }

  lemma {:induction false} OwedAppends(a: seq<Frame>, b: seq<Frame>, e: Secrets)
    ensures Owed(a + b, e) == Owed(a, e) + Owed(b, e)
  {
    hide OwedFor;
    if a == [] {
      assert a + b == b;
    } else {
      assert (a + b)[1..] == a[1..] + b;
      OwedAppends(a[1..], b, e);
    }
  }

  lemma OwedOne(f: Frame, e: Secrets)
    ensures Owed([f], e) == match OwedFor(f, e)
                            case None => []
                            case Some(body) => [Frame('p' as int, LengthField(|body| + 4), body)]
  {
    hide OwedFor;
    assert Owed([f][1..], e) == [];
  }

  /** Authentication sends what is owed up to ReadyForQuery, and nothing else. */
  lemma {:induction false} SendsWhatIsOwed(frames: seq<Frame>, e: Secrets, s: Session, n: nat)
    requires Authenticate(frames, e, s).Ok? && Ready(frames, n)
    ensures Authenticate(frames, e, s).value.session.sent == s.sent + RawAll(Owed(frames[..n], e))
    decreases |frames|
  {
    hide SignedBe, ParseBackendKey, OwedFor, Owed, RawAll, ScramExchange, PasswordMessage, SaltedPassword, Next;
    var f, rest := frames[0], frames[1..];
    if n == 0 {
      assert frames[..0] == [];
      NothingOwed(e);
    } else if SaslRequest(f) {
      ScramReadsAuth(rest, f.body[4..], e);
      var said := ScramExchange(rest, f.body[4..], e).value;
      assert rest[0] == frames[1] && rest[1] == frames[2] && rest[2..] == frames[3..];
      assert n > 2;
      SendsWhatIsOwed(frames[3..], e, s.(sent := s.sent + said), n - 3);
      ExchangeSends(frames, e);
      OwedInTwoParts(frames, n, 3, e);
    } else {
      var t := Next(f, e, s);
      NextIsNext(frames, e, s);
      SendsWhatIsOwed(rest, e, t, n - 1);
      NextSends(f, e, s);
      assert frames[..1] == [f];
      OwedInTwoParts(frames, n, 1, e);
    }
  }

  lemma NothingOwed(e: Secrets)
    ensures RawAll(Owed([], e)) == []
  {
  }

  lemma OwedInTwoParts(frames: seq<Frame>, n: nat, k: nat, e: Secrets)
    requires k <= n <= |frames|
    ensures RawAll(Owed(frames[..n], e)) == RawAll(Owed(frames[..k], e)) + RawAll(Owed(frames[k..][..n - k], e))
  {
    assert frames[..n] == frames[..k] + frames[k..][..n - k];
    OwedAppends(frames[..k], frames[k..][..n - k], e);
    RawAllAppends(Owed(frames[..k], e), Owed(frames[k..][..n - k], e));
  }

  /** A message that neither ends nor breaks off the authentication, and asks for no SASL exchange. */
  predicate Continues(f: Frame) {
    && f.tag != TAG_READY && f.tag != TAG_ERROR
    && (f.tag == TAG_AUTH ==>
          |f.body| >= 4 && AuthKind(f) in {0, 3, 5} && (AuthKind(f) == 5 ==> |f.body| >= 8))
  }

  lemma NextIsNext(frames: seq<Frame>, e: Secrets, s: Session)
    requires Authenticate(frames, e, s).Ok? && frames[0].tag != TAG_READY && !SaslRequest(frames[0])
    ensures Continues(frames[0]) && Authenticate(frames, e, s) == Authenticate(frames[1..], e, Next(frames[0], e, s))
  {
    hide SignedBe, ParseBackendKey, PasswordMessage, SaltedPassword;
  }

  lemma NextSends(f: Frame, e: Secrets, s: Session)
    requires Continues(f)
    ensures Next(f, e, s).sent == s.sent + RawAll(Owed([f], e))
  {
    hide SignedBe, ParseBackendKey, LengthField;
    OwedOne(f, e);
    NothingRaw();
    assert MD5 == Ascii("md5");
    if OwedFor(f, e).Some? {
      OneMessage(OwedFor(f, e).value);
    }
  }

  lemma OneMessage(body: Bytes)
    ensures RawAll([Frame('p' as int, LengthField(|body| + 4), body)]) == Message(TAG_PASSWORD, body)
  {
    hide LengthField;
    var f := Frame('p' as int, LengthField(|body| + 4), body);
    OneMoreRaw([], f);
    NothingRaw();
    assert [] + [f] == [f];
  }

  lemma ExchangeSends(frames: seq<Frame>, e: Secrets)
    requires |frames| >= 3 && SaslRequest(frames[0]) && ScramExchange(frames[1..], frames[0].body[4..], e).Ok?
    ensures ScramExchange(frames[1..], frames[0].body[4..], e).value == RawAll(Owed(frames[..3], e))
  {
    hide SignedBe, LengthField, Contains, Owed, RawAll;
    var f, first, last := frames[0], frames[1], frames[2];
    ScramReadsAuth(frames[1..], f.body[4..], e);
    assert frames[1..][0] == first && frames[1..][1] == last;
    assert SCRAM == Ascii("SCRAM-SHA-256");
    var initial := Ascii("SCRAM-SHA-256") + [0] + LengthField(|e.clientFirst|) + e.clientFirst;
    var final := e.clientFinal(first.body[4..]).value;
    assert OwedFor(f, e) == Some(initial) && OwedFor(first, e) == Some(final) && OwedFor(last, e) == None;
    OwedOne(f, e);
    OwedOne(first, e);
    OwedOne(last, e);
    assert frames[..3] == [f] + ([first] + [last]);
    OwedAppends([f], [first] + [last], e);
    OwedAppends([first], [last], e);
    OneMessage(initial);
    OneMessage(final);
    var a, b := Owed([f], e), Owed([first], e);
    RawAllAppends(a, b);
    assert Owed(frames[..3], e) == a + b by {
      assert Owed([last], e) == [];
    }
  }

  /**
   What a successful connect has sent parses back: a startup packet for user and database, a password
   message for each request with what it asks for, in order, and last the query for the role.
   */
  lemma ConnectSends(input: Bytes, user: Bytes, database: Bytes, role: Bytes, e: Secrets)
    returns (n: nat, answers: Bytes, query: Bytes)
    requires Connected(input, user, database, role, e).Ok?
    ensures n < |Frames(input)| && Ready(Frames(input), n)
    ensures Connected(input, user, database, role, e).value.sent
         == PgStartup.StartupPacket(user, database) + answers + query
    ensures (forall f :: f in Owed(Frames(input)[..n], e) ==> |f.body| + 4 <= I32_MAX) ==>
              Frames(answers) == Owed(Frames(input)[..n], e) && Leftover(answers) == []
    ensures IsMessage(query, 'Q' as int, Ascii("SET ROLE ") + role + [0])
  {
    hide Authenticate, RoleReply, Frames, Leftover, PgStartup.StartupPacket, RawAll, RoleQuery, OwedFor, Ascii;
    hide IsMessage;
    var frames := Frames(input);
    var start := Session([], None, PgStartup.StartupPacket(user, database));
    n := AuthenticationShape(frames, e, start);
    SendsWhatIsOwed(frames, e, start, n);
    RoleQueryAsks(role);
    var owed := Owed(frames[..n], e);
    answers, query := RawAll(owed), RoleQuery(role);
    if forall f :: f in owed ==> |f.body| + 4 <= I32_MAX {
      OwedIsFramed(frames[..n], e);
      FramesInvert(owed, []);
      NoFrames();
      assert answers + [] == answers;
    }
  }

  lemma {:induction false} OwedIsFramed(frames: seq<Frame>, e: Secrets)
    requires forall f :: f in Owed(frames, e) ==> |f.body| + 4 <= I32_MAX
    ensures forall f :: f in Owed(frames, e) ==> WellFramed(f)
  {
    hide OwedFor, LengthField, SignedBe;
    if frames == [] {
    } else {
      OwedIsFramed(frames[1..], e);
      match OwedFor(frames[0], e) {
        case None =>
        case Some(body) =>
          assert Owed(frames, e)[0] in Owed(frames, e);
          LengthRoundTrip(|body| + 4);
      }
    }
  }

  /**
   The answer to an MD5 request leaves the user's name out. With a digest that tells texts apart it is
   the one section 55.2.1 of the PostgreSQL documentation asks for exactly when that name is empty.
   */
  lemma Md5AnswersExpectedIff(e: Secrets, user: Bytes, salt: Bytes)
    requires forall a, b :: e.md5Hex(a) == e.md5Hex(b) ==> a == b
    ensures SaltedPassword(e, salt) == Ascii("md5") + e.md5Hex(e.md5Hex(e.password + user) + salt) <==> user == []
  {
    var sent, wanted := e.md5Hex(e.password), e.md5Hex(e.password + user);
    assert e.password + [] == e.password;
    assert MD5 == Ascii("md5");
    if SaltedPassword(e, salt) == Ascii("md5") + e.md5Hex(wanted + salt) {
      assert SaltedPassword(e, salt)[3..] == e.md5Hex(sent + salt);
      assert (Ascii("md5") + e.md5Hex(wanted + salt))[3..] == e.md5Hex(wanted + salt);
      assert sent + salt == wanted + salt;
      assert sent == (sent + salt)[..|sent + salt| - |salt|] == (wanted + salt)[..|sent + salt| - |salt|] == wanted;
      assert |e.password| == |e.password + user|;
    }
  }

  /** The cancellation pair that was sent is the one that is kept. */
  lemma BackendKeyParses(processId: int, secretKey: int, more: Bytes)
    requires -0x8000_0000 <= processId <= I32_MAX && -0x8000_0000 <= secretKey <= I32_MAX
    ensures ParseBackendKey(WriteSigned(processId) + WriteSigned(secretKey) + more)
         == Some(BackendKey(processId, secretKey))
  {
    hide SignedBe, WriteSigned;
    var body := WriteSigned(processId) + WriteSigned(secretKey) + more;
    assert body[..4] == WriteSigned(processId) && body[4..8] == WriteSigned(secretKey);
    SignedRoundTrip(processId);
    SignedRoundTrip(secretKey);
  }

  lemma ShortKeyIsNone(body: Bytes)
    ensures ParseBackendKey(body).None? <==> |body| < 8
  {
    hide SignedBe;
  }

  /** The password, in any form, is sent only when an authentication request asked for it. */
  lemma {:induction false} NothingSentUnasked(frames: seq<Frame>, e: Secrets, s: Session, n: nat)
    requires Authenticate(frames, e, s).Ok? && Ready(frames, n)
    requires forall f :: f in frames[..n] && f.tag == TAG_AUTH && |f.body| >= 4 ==> AuthKind(f) == 0
    ensures Authenticate(frames, e, s).value.session.sent == s.sent
    decreases |frames|
  {
    hide PasswordMessage, SaltedPassword, SignedBe, ParseBackendKey, ScramExchange;
    if frames[0].tag == TAG_READY {
    } else {
      assert frames[0] in frames[..n];
      assert frames[1..][..n - 1] == frames[..n][1..];
      NothingSentUnasked(frames[1..], e, Next(frames[0], e, s), n - 1);
    }
  }

  // ---- When it is refused -----------------------------------------------------------------

  /** One field of an ErrorResponse: its type and its text. */
  datatype ErrorField = ErrorField(kind: Byte, text: Bytes)

  function RenderError(fields: seq<ErrorField>): Bytes {
    if fields == [] then [0] else [fields[0].kind] + fields[0].text + [0] + RenderError(fields[1..])
  }

  function FirstOfKind(fields: seq<ErrorField>, kind: Byte): Option<Bytes> {
    if fields == [] then None
    else if fields[0].kind == kind then Some(fields[0].text) else FirstOfKind(fields[1..], kind)
  }

  /** The message of a rendered error is the text of its first field of type M. */
  lemma {:induction false} ErrorMessageReads(fields: seq<ErrorField>)
    requires forall i :: 0 <= i < |fields| ==> fields[i].kind != 0 && 0 !in fields[i].text
    ensures ErrorMessage(RenderError(fields)) == FirstOfKind(fields, 'M' as int)
  {
    hide PgStartup.SplitNul;
    if fields == [] {
      NoFields();
    } else {
      var field := [fields[0].kind] + fields[0].text;
      PgStartup.SplitNulTakes(field, RenderError(fields[1..]));
      ErrorMessageReads(fields[1..]);
      var split := [field] + PgStartup.SplitNul(RenderError(fields[1..]));
      assert split[1..] == PgStartup.SplitNul(RenderError(fields[1..])) && field[1..] == fields[0].text;
    }
  }

  lemma NoFields()
    ensures ErrorMessage([0]) == None
  {
    assert PgStartup.SplitNul([0]) == [[], []];
  }

  /** An ErrorResponse that comes before ReadyForQuery ends the authentication with its message. */
  lemma {:induction false} RefusalIsReported(frames: seq<Frame>, e: Secrets, s: Session, k: nat)
    requires k < |frames| && frames[k].tag == 'E' as int && AllAnswerable(frames, k, e)
    requires forall i :: 0 <= i < k ==> frames[i].tag != TAG_READY && frames[i].tag != TAG_ERROR
    ensures Authenticate(frames, e, s) == Err(Refused(ErrorMessage(frames[k].body)))
    decreases |frames|
  {
    hide PasswordMessage, SaltedPassword, SignedBe, ParseBackendKey, ErrorMessage, ScramExchange, Contains;
    if k == 0 {
    } else if OfKind(frames, 0, 10) {
      assert Answerable(frames, 0, e);
      ExchangeIsAnswerable(frames, e);
      ScramSucceedsIff(frames, e);
      assert k > 2 && frames[1..][2..] == frames[3..];
      StillAnswerable(frames, 3, k, e);
      var said := ScramExchange(frames[1..], frames[0].body[4..], e).value;
      RefusalIsReported(frames[3..], e, s.(sent := s.sent + said), k - 3);
    } else {
      assert Answerable(frames, 0, e);
      StillAnswerable(frames, 1, k, e);
      RefusalIsReported(frames[1..], e, Next(frames[0], e, s), k - 1);
    }
  }

  lemma StillAnswerable(frames: seq<Frame>, skip: nat, k: nat, e: Secrets)
    requires 0 < skip <= k < |frames| && AllAnswerable(frames, k, e)
    requires !OfKind(frames, skip - 1, 10) && !OfKind(frames, skip - 2, 10)
    ensures AllAnswerable(frames[skip..], k - skip, e)
  {
    hide Answerable, OfKind;
    forall i | 0 <= i < k - skip
      ensures Answerable(frames[skip..], i, e)
    {
      AnswerableLater(frames, skip, i, e);
      assert Answerable(frames, skip + i, e);
    }
  }
}
