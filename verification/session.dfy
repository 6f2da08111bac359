/** The resumable session of `obsidian.server.io.ws.WebSocketHandler`; the
    legacy `obsidian.server.io.MagmaClient` carries the same fields and the
    same `handleClose`/`resume`/`send` code. Outgoing frames are the
    serialized dispatches; the socket is the `sent` log; the cleanup
    executor is a pending deadline checked against an explicit clock. */
module ResumableSession {
  import opened Wrappers
  import opened KotlinInt

  datatype Session = Session(
    active: bool,
    resumeKey: Option<string>,
    resumeTimeout: Option<Long>,
    bufferTimeout: Option<Long>,
    buffer: Option<seq<string>>,    // the dispatch buffer, once allocated
    shutdownAt: Option<int>,        // the scheduled shutdown, in milliseconds
    shutDown: bool,                 // the client has been shut down
    sent: seq<string>)              // frames written to the socket, in order

  /** A handler before `listen`: inactive, nothing configured. */
  function New(): (s: Session)
    ensures !s.active && s.resumeKey.None? && s.resumeTimeout.None? && s.bufferTimeout.None?
    ensures s.buffer.None? && s.shutdownAt.None? && !s.shutDown && s.sent == []
  {
    Session(false, None, None, None, None, None, false, [])
  }

  /** `listen` starts by marking the session active ... */
  function Listen(s: Session): (r: Session)
    ensures r.active && r.(active := s.active) == s
  {
    s.(active := true)
  }

  /** ... and marks it inactive once the socket's frames run out. */
  function Disconnected(s: Session): (r: Session)
    ensures !r.active && r.(active := s.active) == s
  {
    s.(active := false)
  }

  /** The SETUP_RESUMING handler: only the resume settings change. */
  function SetupResuming(s: Session, key: string, timeout: Option<Long>): (r: Session)
    ensures r.resumeKey == Some(key) && r.resumeTimeout == timeout
    ensures r.(resumeKey := s.resumeKey, resumeTimeout := s.resumeTimeout) == s
  {
    s.(resumeKey := Some(key), resumeTimeout := timeout)
  }

  /** The SETUP_DISPATCH_BUFFER handler: only the buffer timeout changes. */
  function SetupDispatchBuffer(s: Session, timeout: Long): (r: Session)
    ensures r.bufferTimeout == Some(timeout) && r.(bufferTimeout := s.bufferTimeout) == s
  {
    s.(bufferTimeout := Some(timeout))
  }

  /** `send(dispatch)`: written out while active; while inactive, queued on
      the buffer if one exists and dropped otherwise. */
  function Send(s: Session, json: string): (r: Session)
    ensures s.active ==> r == s.(sent := s.sent + [json])
    ensures !s.active && s.buffer.Some? ==> r == s.(buffer := Some(s.buffer.value + [json]))
    ensures !s.active && s.buffer.None? ==> r == s
  {
    if !s.active then
      match s.buffer
      case Some(b) => s.(buffer := Some(b + [json]))
      case None => s
    else s.(sent := s.sent + [json])
  }

  /** `handleClose`: without a resume key the client shuts down at once.
      With one, a fresh buffer is allocated when the buffer timeout is
      positive, and the shutdown is scheduled `resumeTimeout` milliseconds
      later; a resume key set up without a timeout fails the `!!` after the
      buffer exists, and nothing is scheduled. */
  function HandleClose(s: Session, now: int): (r: (Session, Option<Failure>))
    ensures s.resumeKey.None? ==> r == (s.(shutDown := true), None)
    ensures s.resumeKey.Some? ==> !r.0.active == !s.active && r.0.shutDown == s.shutDown && r.0.sent == s.sent
    ensures s.resumeKey.Some? ==>
              r.0.buffer == (if s.bufferTimeout.Some? && s.bufferTimeout.value > 0 then Some([]) else s.buffer)
    ensures s.resumeKey.Some? && s.resumeTimeout.None? ==> r.1 == Some(NullPointer) && r.0.shutdownAt == s.shutdownAt
    ensures s.resumeKey.Some? && s.resumeTimeout.Some? ==> r.1.None? && r.0.shutdownAt == Some(now + s.resumeTimeout.value)
  {
    if s.resumeKey.None? then (s.(shutDown := true), None)
    else
      var buffered := if s.bufferTimeout.Some? && s.bufferTimeout.value > 0 then s.(buffer := Some([])) else s;
      match s.resumeTimeout
      case None => (buffered, Some(NullPointer))
      case Some(t) => (buffered.(shutdownAt := Some(now + t)), None)
  }

  /** The cleanup executor: a scheduled shutdown runs once its time comes. */
  function Elapse(s: Session, now: int): (r: Session)
    ensures r.shutDown <==> s.shutDown || (s.shutdownAt.Some? && s.shutdownAt.value <= now)
    ensures r.shutdownAt.Some? <==> s.shutdownAt.Some? && now < s.shutdownAt.value
    ensures r.sent == s.sent && r.buffer == s.buffer && r.active == s.active
  {
    if s.shutdownAt.Some? && s.shutdownAt.value <= now then s.(shutDown := true, shutdownAt := None) else s
  }

  /** `resume`: active again, the pending shutdown cancelled, and every
      buffered frame written in order; the buffer itself is kept. */
  function Resume(s: Session): (r: Session)
    ensures r.active && r.shutdownAt.None? && r.buffer == s.buffer && r.shutDown == s.shutDown
    ensures r.sent == s.sent + (if s.buffer.Some? then s.buffer.value else [])
  {
    var replayed := if s.buffer.Some? then s.sent + s.buffer.value else s.sent;
    s.(active := true, shutdownAt := None, sent := replayed)
  }

  /** Several dispatches sent one after another. */
  function SendAll(s: Session, frames: seq<string>): (r: Session)
    decreases |frames|
  {
    if frames == [] then s else SendAll(Send(s, frames[0]), frames[1..])
  }

  /** While inactive, dispatches pile up on an existing buffer in order and
      nothing reaches the socket. */
  lemma {:induction false} InactiveSendsAreBuffered(s: Session, frames: seq<string>)
    requires !s.active && s.buffer.Some?
    ensures SendAll(s, frames) == s.(buffer := Some(s.buffer.value + frames))
    decreases |frames|
  {
    if frames == [] {
      assert s.buffer.value + frames == s.buffer.value;
    } else {
      var s' := Send(s, frames[0]);
      InactiveSendsAreBuffered(s', frames[1..]);
      assert s.buffer.value + [frames[0]] + frames[1..] == s.buffer.value + frames;
    }
  }

  /** While inactive and without a buffer, every dispatch is lost. */
  lemma {:induction false} InactiveSendsAreDroppedWithoutBuffer(s: Session, frames: seq<string>)
    requires !s.active && s.buffer.None?
    ensures SendAll(s, frames) == s
    decreases |frames|
  {
    if frames != [] {
      InactiveSendsAreDroppedWithoutBuffer(Send(s, frames[0]), frames[1..]);
    }
  }

  /** The resume guarantee: after a close with resuming and a positive
      buffer timeout, everything dispatched until the resume reaches the
      socket in order, and the scheduled shutdown is called off. */
  lemma CloseThenResumeDeliversEverything(s: Session, now: int, frames: seq<string>)
    requires s.resumeKey.Some? && s.resumeTimeout.Some? && s.bufferTimeout.Some? && s.bufferTimeout.value > 0
    ensures var (closed, failure) := HandleClose(Disconnected(s), now);
            failure.None? &&
            var resumed := Resume(SendAll(closed, frames));
            resumed.sent == s.sent + frames && resumed.active && resumed.shutdownAt.None? &&
            resumed.shutDown == s.shutDown
  {
    var (closed, _) := HandleClose(Disconnected(s), now);
    InactiveSendsAreBuffered(closed, frames);
    assert [] + frames == frames;
  }

  /** The buffer outlives the resume: a session resumed twice without a
      close in between writes the buffered frames twice. */
  lemma ResumeReplaysAgain(s: Session)
    requires s.buffer.Some?
    ensures Resume(Resume(s)).sent == s.sent + s.buffer.value + s.buffer.value
  {
  }
}

/** The legacy `MagmaClient`'s own `shutdown`: every link's player is
    destroyed and removed, then the Bedrock client is closed. */
module MagmaClientSession {
  import opened KotlinInt
  import AudioPlayer
  import ResumableSession

  datatype Client = Client(session: ResumableSession.Session, links: map<Long, AudioPlayer.AudioPlayer>,
                           bedrockClosed: bool)

  function Shutdown(c: Client): (r: Client)
    ensures r.links == map[] && r.bedrockClosed && r.session == c.session
  {
    c.(links := map[], bedrockClosed := true)
  }

  /** Shutting down again changes nothing. */
  lemma ShutdownIdempotent(c: Client)
    ensures Shutdown(Shutdown(c)) == Shutdown(c)
  {
  }
}
