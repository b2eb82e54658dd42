/**
 * The connection life cycle of Client and its restarting by ClientApp.  Handlers run one at a
 * time; what the network, the timers and the system do is any sequence of events.
 */
module ClientProtocol {
  import opened Wrappers

  /** Events of the stream that the client has handlers for. */
  datatype StreamEvent =
    | SocketConnected | SecureConnected | ConnectionFailed
    | Disconnected | InputReady | OutputError | InputShutdown | OutputShutdown | StopRetry

  datatype Handler = OnConnected | OnFailed | OnDisconnected | OnHello | OnData | OnOutputError | OnStopRetry

  type Handlers = map<StreamEvent, Handler>

  /** What the client tells the application, through the event queue. */
  datatype Notice = Failed | Lost | Ready

  /** Whether and where setting up a connection throws. */
  datatype Attempt = Succeeds | FailsEarly | FailsOnConnect

  /** What messages from the server make the client do; a refused one only ends the batch. */
  datatype Command = Handshake | Close | Fail | Refuse | Other

  /** An accepted or rejected hello, and the messages of a batch. */
  datatype Input = Input(helloAccepted: bool, commands: seq<Command>)

  function ConnectedEvent(crypto: bool): StreamEvent {
    if crypto then SecureConnected else SocketConnected
  }

  /** The handlers while the socket connects. */
  function Opening(crypto: bool): Handlers {
    map[ConnectedEvent(crypto) := OnConnected, ConnectionFailed := OnFailed]
  }

  /** The handlers once it has; the secure one is never removed. */
  function Open(crypto: bool, input: Handler): Handlers {
    var common := map[Disconnected := OnDisconnected, InputReady := input, OutputError := OnOutputError,
                      InputShutdown := OnDisconnected, OutputShutdown := OnDisconnected, StopRetry := OnStopRetry];
    if crypto then common[SecureConnected := OnConnected] else common
  }

  lemma ReopenedHandlers(crypto: bool)
    ensures (Opening(crypto) - {SocketConnected, ConnectionFailed}) + Open(false, OnHello) == Open(crypto, OnHello)
    ensures forall h ::
              (Open(crypto, h) - {SocketConnected, ConnectionFailed}) + Open(false, OnHello) == Open(crypto, OnHello)
    ensures Open(crypto, OnHello) != Open(crypto, OnData)
  {
    assert Open(crypto, OnHello)[InputReady] != Open(crypto, OnData)[InputReady];
  }

  /** Commands after which the next one is handled. */
  ghost predicate Harmless(commands: seq<Command>) {
    Close !in commands && Fail !in commands && Refuse !in commands
  }

  /** The notices that such commands send. */
  ghost function Announced(commands: seq<Command>): seq<Notice> {
    if commands == [] then []
    else Announced(commands[..|commands| - 1]) + if commands[|commands| - 1] == Handshake then [Ready] else []
  }

  lemma AnnouncedAppend(commands: seq<Command>, command: Command)
    ensures Announced(commands + [command]) == Announced(commands) + if command == Handshake then [Ready] else []
  {
    assert (commands + [command])[..|commands|] == commands;
  }

  // ---------------------------------------------------------------- the plain protocol

  /** No connection; one whose socket has reported or not; one past hello, ready or not. */
  datatype Stage = Resting | Opened(reported: bool) | Joined(ready: bool)

  datatype Session = Session(stage: Stage, suspended: bool, connectOnResume: bool, notices: seq<Notice>)

  ghost function Ending(s: Session, notice: Notice): Session {
    s.(stage := Resting, notices := s.notices + [notice])
  }

  ghost function Reaching(s: Session, attempt: Attempt): Session {
    if s.stage != Resting then s
    else if s.suspended then s.(connectOnResume := true)
    else if attempt == Succeeds then s.(stage := Opened(false))
    else Ending(s, Failed)
  }

  /** What the messages of a batch come to. */
  ghost function Obeying(s: Session, commands: seq<Command>): Session
    decreases |commands|
  {
    if commands == [] then s
    else match commands[0]
      case Handshake => Obeying(s.(stage := Joined(true), notices := s.notices + [Ready]), commands[1..])
      case Close => Ending(s.(connectOnResume := false), Lost)
      case Fail => Ending(s.(connectOnResume := false), Failed)
      case Refuse => s
      case Other => Obeying(s, commands[1..])
  }

  lemma ObeyingStep(s: Session, commands: seq<Command>, i: nat)
    requires i <= |commands|
    ensures i == |commands| ==> Obeying(s, commands[i..]) == s
    ensures i < |commands| ==>
              Obeying(s, commands[i..]) ==
              match commands[i]
              case Handshake => Obeying(s.(stage := Joined(true), notices := s.notices + [Ready]), commands[i + 1..])
              case Close => Ending(s.(connectOnResume := false), Lost)
              case Fail => Ending(s.(connectOnResume := false), Failed)
              case Refuse => s
              case Other => Obeying(s, commands[i + 1..])
  {
    if i < |commands| {
      assert commands[i..][1..] == commands[i + 1..];
    }
  }

  /** The commands up to number `k` told as one. */
  ghost function Told(s: Session, commands: seq<Command>): Session {
    s.(stage := if Handshake in commands then Joined(true) else s.stage, notices := s.notices + Announced(commands))
  }

  lemma {:induction false} ObeyingHarmless(s: Session, commands: seq<Command>, k: nat)
    requires k <= |commands| && Harmless(commands[..k])
    ensures Obeying(s, commands) == Obeying(Told(s, commands[..k]), commands[k..])
  {
    hide Obeying;
    if k == 0 {
      assert commands[..0] == [] && commands[0..] == commands && s.notices + [] == s.notices;
    } else {
      var init, c := commands[..k - 1], commands[k - 1];
      assert commands[..k] == init + [c];
      ObeyingHarmless(s, commands, k - 1);
      ObeyingStep(Told(s, init), commands, k - 1);
      AnnouncedAppend(init, c);
      assert c in commands[..k];
      hide Announced;
      assert s.notices + Announced(init) + [Ready] == s.notices + (Announced(init) + [Ready]);
      assert Announced(init) + [] == Announced(init);
      assert Told(s, init + [c]) ==
          if c == Handshake then Told(s, init).(stage := Joined(true), notices := Told(s, init).notices + [Ready])
          else Told(s, init);
    }
  }

  lemma ObeyingUpTo(s: Session, commands: seq<Command>, k: nat)
    requires k <= |commands| && Harmless(commands[..k])
    requires k < |commands| ==> commands[k] == Close || commands[k] == Fail || commands[k] == Refuse
    ensures var told := Told(s, commands[..k]);
            Obeying(s, commands) ==
            if k == |commands| || commands[k] == Refuse then told
            else Ending(told.(connectOnResume := false), if commands[k] == Close then Lost else Failed)
  {
    hide Obeying, Announced;
    ObeyingHarmless(s, commands, k);
    ObeyingStep(Told(s, commands[..k]), commands, k);
  }

  ghost function Suspending(s: Session): Session {
    Ending(s.(suspended := true, connectOnResume := s.stage.Joined?), Lost)
  }

  ghost function Resuming(s: Session, attempt: Attempt): Session {
    var awake := s.(suspended := false, connectOnResume := false);
    if s.connectOnResume then Reaching(awake, attempt) else awake
  }

  predicate LosesStream(event: StreamEvent) {
    event == Disconnected || event == OutputError || event == InputShutdown || event == OutputShutdown
  }

  /** A secure socket reports its connection once more although hello has been exchanged. */
  predicate Breaks(crypto: bool, stage: Stage, event: StreamEvent) {
    crypto && stage.Joined? && event == SecureConnected
  }

  /** The handler of an event, by the stage alone. */
  ghost function Answering(crypto: bool, stage: Stage, event: StreamEvent): Option<Handler> {
    match stage
    case Resting => None
    case Opened(false) =>
      if event == ConnectedEvent(crypto) then Some(OnConnected)
      else if event == ConnectionFailed then Some(OnFailed)
      else None
    case _ =>
      match event
      case Disconnected => Some(OnDisconnected)
      case InputShutdown => Some(OnDisconnected)
      case OutputShutdown => Some(OnDisconnected)
      case OutputError => Some(OnOutputError)
      case InputReady => Some(if stage.Joined? then OnData else OnHello)
      case StopRetry => Some(OnStopRetry)
      case SecureConnected => if crypto then Some(OnConnected) else None
      case _ => None
  }

  /** What an event of the stream comes to. */
  ghost function Hearing(crypto: bool, s: Session, event: StreamEvent, input: Input): Session {
    match s.stage
    case Resting => s
    case Opened(false) =>
      if event == ConnectedEvent(crypto) then s.(stage := Opened(true))
      else if event == ConnectionFailed then Ending(s, Failed)
      else s
    case Opened(true) =>
      if LosesStream(event) then Ending(s, Lost)
      else if event == InputReady then
        if input.helloAccepted then s.(stage := Joined(false)) else Ending(s, Failed)
      else s
    case Joined(_) =>
      if LosesStream(event) then Ending(s, Lost)
      else if event == InputReady then Obeying(s, input.commands)
      else s
  }

  lemma HearingByHandler(crypto: bool, s: Session, event: StreamEvent, input: Input)
    ensures var t := Hearing(crypto, s, event, input);
            match Answering(crypto, s.stage, event)
            case None => t == s
            case Some(OnConnected) => s.stage.Joined? || (s.stage.Opened? && t == s.(stage := Opened(true)))
            case Some(OnFailed) => s.stage == Opened(false) && t == Ending(s, Failed)
            case Some(OnHello) =>
              && s.stage == Opened(true)
              && t == if input.helloAccepted then s.(stage := Joined(false)) else Ending(s, Failed)
            case Some(OnData) => s.stage.Joined? && t == Obeying(s, input.commands)
            case Some(OnStopRetry) => t == s
            case Some(_) => s.stage != Resting && t == Ending(s, Lost)
    ensures Breaks(crypto, s.stage, event)
            <==> s.stage.Joined? && Answering(crypto, s.stage, event) == Some(OnConnected)
  {
    hide Obeying;
  }

  // ---------------------------------------------------------------- the client

  class Client {
    const crypto: bool
    var stream: bool
    var timer: bool
    var server: bool
    var ready: bool
    var suspended: bool
    var connectOnResume: bool
    var handlers: Handlers          // those installed for the current stream
    var screenHandlers: bool        // shape-changed and clipboard-grabbed
    var retry: bool
    var notices: seq<Notice>        // sent and not yet handled by the application

    var reported: bool              // the current socket has reported that it is connected

    ghost predicate Idle()
      reads this
    {
      !stream && !timer && !server && handlers == map[]
    }

    ghost predicate Connecting()
      reads this
    {
      && stream && timer && !server
      && handlers == if reported then Open(crypto, OnHello) else Opening(crypto)
    }

    ghost predicate Connected()
      reads this
    {
      stream && !timer && server && handlers == Open(crypto, OnData) && reported
    }

    /** Exactly one of the three phases, and ready only when connected. */
    ghost predicate Valid()
      reads this
    {
      && (Idle() || Connecting() || Connected())
      && (ready ==> server)
      && screenHandlers == server
    }

    ghost function Now(): Session
      reads this
    {
      Session(if server then Joined(ready) else if stream then Opened(reported) else Resting,
              suspended, connectOnResume, notices)
    }

    constructor (crypto: bool)
      ensures Now() == Session(Resting, false, false, [])
      ensures Valid() && Idle() && !suspended && !connectOnResume && notices == [] && this.crypto == crypto
    {
      this.crypto := crypto;
      stream, timer, server, ready := false, false, false, false;
      suspended, connectOnResume, handlers, screenHandlers := false, false, map[], false;
      retry, notices, reported := true, [], false;
    }

    // -------------------------------------------------------------- setting up and cleaning up

    method SetupConnecting()
      requires stream
      modifies this`handlers
      ensures handlers == old(handlers)[ConnectedEvent(crypto) := OnConnected][ConnectionFailed := OnFailed]
    {
      if crypto {
        handlers := handlers[SecureConnected := OnConnected];
      } else {
        handlers := handlers[SocketConnected := OnConnected];
      }
      handlers := handlers[ConnectionFailed := OnFailed];
    }

    method SetupConnection()
      requires stream
      modifies this`handlers
      ensures handlers == old(handlers) + Open(false, OnHello)
    {
      handlers := handlers[Disconnected := OnDisconnected];
      handlers := handlers[InputReady := OnHello];
      handlers := handlers[OutputError := OnOutputError];
      handlers := handlers[InputShutdown := OnDisconnected];
      handlers := handlers[OutputShutdown := OnDisconnected];
      handlers := handlers[StopRetry := OnStopRetry];
    }

    /** The proxy takes over the stream's input. */
    method SetupScreen()
      requires stream && !server
      modifies this`ready, this`server, this`handlers, this`screenHandlers
      ensures server && !ready && screenHandlers && handlers == old(handlers)[InputReady := OnData]
    {
      ready := false;
      server := true;
      handlers := handlers[InputReady := OnData];
      screenHandlers := true;
    }

    method SetupTimer()
      requires !timer
      modifies this`timer
      ensures timer
    {
      timer := true;
    }

    method CleanupConnecting()
      modifies this`handlers
      ensures handlers == if stream then old(handlers) - {SocketConnected, ConnectionFailed} else old(handlers)
    {
      if stream {
        handlers := handlers - {SocketConnected};
        handlers := handlers - {ConnectionFailed};
      }
    }

    method CleanupConnection()
      modifies this`handlers, this`stream
      ensures !stream && handlers == if old(stream) then map[] else old(handlers)
    {
      if stream {
        handlers := handlers - {InputReady, OutputError, InputShutdown, OutputShutdown, Disconnected, StopRetry};
        CleanupStream();
      }
    }

    /** Deleting the proxy takes its input handler off the stream, so the stream must be there. */
    method CleanupScreen()
      requires server ==> stream
      modifies this`ready, this`server, this`handlers, this`screenHandlers
      ensures !server && (old(server) ==> !ready && !screenHandlers)
      ensures handlers == if old(server) then old(handlers) - {InputReady} else old(handlers)
      ensures !old(server) ==> ready == old(ready) && screenHandlers == old(screenHandlers)
    {
      if server {
        if ready {
          ready := false;
        }
        screenHandlers := false;
        handlers := handlers - {InputReady};
        server := false;
      }
    }

    method CleanupTimer()
      modifies this`timer
      ensures !timer
    {
      timer := false;
    }

    /** Deleting the stream removes every handler that is left for it. */
    method CleanupStream()
      modifies this`stream, this`handlers
      ensures !stream && handlers == map[]
    {
      stream := false;
      handlers := map[];
    }

    method Send(notice: Notice)
      modifies this`notices
      ensures notices == old(notices) + [notice]
    {
      notices := notices + [notice];
    }

    // -------------------------------------------------------------- operations

    method Connect(attempt: Attempt)
      requires Valid()
      modifies this
      ensures Now() == Reaching(old(Now()), attempt)
      ensures Valid() && suspended == old(suspended)
      ensures old(stream) ==> stream && notices == old(notices) && connectOnResume == old(connectOnResume)
      ensures !old(stream) && suspended ==> !stream && connectOnResume && notices == old(notices)
      ensures !old(stream) && !suspended ==>
                && connectOnResume == old(connectOnResume)
                && if attempt == Succeeds then Connecting() && notices == old(notices)
                   else Idle() && notices == old(notices) + [Failed]
    {
      if stream {
        return;
      }
      if suspended {
        connectOnResume := true;
        return;
      }
      if attempt != FailsEarly {
        stream := true;
        reported := false;
        SetupConnecting();
        SetupTimer();
      }
      if attempt != Succeeds {
        CleanupTimer();
        CleanupConnecting();
        CleanupStream();
        Send(Failed);
      }
    }

    method Disconnect(withMessage: bool)
      requires Valid()
      modifies this
      ensures Valid() && Idle() && !connectOnResume && suspended == old(suspended)
      ensures notices == old(notices) + [if withMessage then Failed else Lost]
      ensures Now() == Ending(old(Now()).(connectOnResume := false), if withMessage then Failed else Lost)
    {
      connectOnResume := false;
      CleanupTimer();
      CleanupScreen();
      CleanupConnecting();
      CleanupConnection();
      Send(if withMessage then Failed else Lost);
    }

    // -------------------------------------------------------------- handlers

    /**
     * The first report of a socket makes the client wait for hello, and a second one before
     * hello changes nothing.  After hello, one that only a secure socket could get through gives
     * the proxy's input back to handle_hello: the next packet fails the assertion in setupScreen.
     */
    method HandleConnected()
      requires Valid() && stream
      modifies this
      ensures Kept(old(notices), old(suspended), old(connectOnResume))
      ensures old(Connecting()) ==> Valid() && Connecting() && reported && Now() == old(Now()).(stage := Opened(true))
      ensures old(Connected()) ==> !Valid() && stream && server && handlers == Open(crypto, OnHello)
    {
      hide Open, Opening;
      ReopenedHandlers(crypto);
      CleanupConnecting();
      SetupConnection();
      reported := true;
    }

    ghost predicate Kept(notices0: seq<Notice>, suspended0: bool, connectOnResume0: bool)
      reads this
    {
      notices == notices0 && suspended == suspended0 && connectOnResume == connectOnResume0
    }

    ghost predicate Ended(notice: Notice, notices0: seq<Notice>, suspended0: bool, connectOnResume0: bool)
      reads this
    {
      Idle() && Kept(notices0 + [notice], suspended0, connectOnResume0)
    }

    method HandleConnectionFailed()
      requires Valid() && Connecting()
      modifies this
      ensures Valid() && Ended(Failed, old(notices), old(suspended), old(connectOnResume))
      ensures Now() == Ending(old(Now()), Failed)
    {
      CleanupTimer();
      CleanupConnecting();
      CleanupStream();
      Send(Failed);
    }

    method HandleConnectTimeout()
      requires Valid() && Connecting()
      modifies this
      ensures Valid() && Ended(Failed, old(notices), old(suspended), old(connectOnResume))
      ensures Now() == Ending(old(Now()), Failed)
    {
      CleanupTimer();
      CleanupConnecting();
      CleanupConnection();
      CleanupStream();
      Send(Failed);
    }

    /** handle_output_error and handle_disconnected. */
    method HandleLost()
      requires Valid() && stream
      modifies this
      ensures Valid() && Ended(Lost, old(notices), old(suspended), old(connectOnResume))
      ensures Now() == Ending(old(Now()), Lost)
    {
      CleanupTimer();
      CleanupScreen();
      CleanupConnection();
      Send(Lost);
    }

    method HandleHello(accepted: bool)
      requires Valid() && Connecting() && reported
      modifies this
      ensures Valid()
      ensures if accepted then Connected() && !ready && Kept(old(notices), old(suspended), old(connectOnResume))
              else Ended(Failed, old(notices), old(suspended), old(connectOnResume))
      ensures Now() == if accepted then old(Now()).(stage := Joined(false)) else Ending(old(Now()), Failed)
    {
      if !accepted {
        Send(Failed);
        CleanupTimer();
        CleanupConnection();
        return;
      }
      SetupScreen();
      CleanupTimer();
    }

    /**
     * The proxy's handle_data, as far as it concerns the connection: `handled` commands, and
     * then perhaps one that ends it, or that ends the batch only.
     */
    method HandleData(commands: seq<Command>) returns (handled: nat)
      requires Valid() && Connected()
      modifies this
      ensures Valid() && suspended == old(suspended)
      ensures handled <= |commands| && Harmless(commands[..handled])
      ensures Now() == Obeying(old(Now()), commands)
      ensures handled == |commands| || commands[handled] == Refuse ==>
                && Connected() && ready == (old(ready) || Handshake in commands[..handled])
                && Kept(old(notices) + Announced(commands[..handled]), old(suspended), old(connectOnResume))
      ensures handled < |commands| && commands[handled] != Refuse ==>
                && Idle() && !connectOnResume && (commands[handled] == Close || commands[handled] == Fail)
                && notices == old(notices) + Announced(commands[..handled])
                              + [if commands[handled] == Close then Lost else Failed]
    {
      hide Open, Opening, Obeying, Announced;
      ghost var s := Now();
      handled := ObeyAll(commands);
      ObeyingUpTo(s, commands, handled);
    }

    method ObeyAll(commands: seq<Command>) returns (handled: nat)
      requires Valid() && Connected()
      modifies this
      ensures Valid() && Now() == Obeying(old(Now()), commands)
      ensures handled <= |commands| && Harmless(commands[..handled])
      ensures handled < |commands| ==>
                commands[handled] == Close || commands[handled] == Fail || commands[handled] == Refuse
    {
      hide Open, Opening, Obeying;
      handled := 0;
      assert commands[0..] == commands;
      while handled < |commands|
        invariant handled <= |commands| && Harmless(commands[..handled])
        invariant Obeying(old(Now()), commands) == Obeying(Now(), commands[handled..])
        invariant Valid() && Connected()
      {
        assert commands[..handled + 1] == commands[..handled] + [commands[handled]];
        ObeyingStep(Now(), commands, handled);
        match commands[handled] {
          case Handshake =>
            ready := true;
            Send(Ready);
          case Close =>
            Disconnect(false);
            return;
          case Fail =>
            Disconnect(true);
            return;
          case Refuse =>
            return;
          case Other =>
        }
        handled := handled + 1;
      }
      ObeyingStep(Now(), commands, handled);
    }

    method HandleSuspend()
      requires Valid()
      modifies this
      ensures Valid() && Idle() && suspended && connectOnResume == old(server)
      ensures notices == old(notices) + [Lost]
      ensures Now() == Suspending(old(Now()))
    {
      suspended := true;
      var wasConnected := server;
      Disconnect(false);
      connectOnResume := wasConnected;
    }

    method HandleResume(attempt: Attempt)
      requires Valid()
      modifies this
      ensures Valid() && !suspended && !connectOnResume
      ensures stream == (old(stream) || (old(connectOnResume) && attempt == Succeeds))
      ensures notices == old(notices) + if stream || !old(connectOnResume) then [] else [Failed]
      ensures Now() == Resuming(old(Now()), attempt)
    {
      suspended := false;
      if connectOnResume {
        connectOnResume := false;
        Connect(attempt);
      }
    }

    /** Who is asked about an event. */
    lemma Lookup(event: StreamEvent)
      requires Valid()
      ensures var answer := Answering(crypto, Now().stage, event);
              if answer.None? then event !in handlers else event in handlers && handlers[event] == answer.value
    {
    }

    /** An event of the current stream goes to its handler, if it has one. */
    method Dispatch(event: StreamEvent, input: Input)
      requires Valid()
      modifies this
      ensures Valid() <==> !Breaks(crypto, old(Now()).stage, event)
      ensures !Breaks(crypto, old(Now()).stage, event) ==> Now() == Hearing(crypto, old(Now()), event, input)
    {
      hide Open, Opening, Obeying, Hearing, Answering, Breaks;
      Lookup(event);
      HearingByHandler(crypto, Now(), event, input);
      if !stream || event !in handlers {
        return;
      }
      match handlers[event] {
        case OnConnected =>
          HandleConnected();
        case OnFailed => HandleConnectionFailed();
        case OnDisconnected => HandleLost();
        case OnOutputError => HandleLost();
        case OnHello => HandleHello(input.helloAccepted);
        case OnData => var _ := HandleData(input.commands);
        case OnStopRetry => retry := false;
      }
    }
  }

  // ---------------------------------------------------------------- the application

  class ClientApp {
    const client: Client
    const restartable: bool
    var restartScheduled: bool
    var restartTimers: nat      // one-shot timers whose handler restarts the client
    var quitQueued: bool

    ghost predicate Valid()
      reads this, client
    {
      client.Valid() && restartTimers == if restartScheduled then 1 else 0
    }

    /** Something is under way, or will be as soon as the system resumes. */
    ghost predicate NotStranded()
      reads this, client
    {
      Going(Now())
    }

    ghost function Now(): Link
      reads this, client
    {
      Link(client.Now(), restartTimers > 0, quitQueued)
    }

    /** The fields. */
    function Look(): View
      reads this, client
    {
      View(client.stream, client.timer, client.server, client.ready, client.stream && client.reported, restartTimers,
           client.suspended, client.connectOnResume, client.notices, quitQueued)
    }

    lemma LooksAlike()
      requires Valid()
      ensures Look() == ViewOf(Now())
    {
    }

    /** The application once its screen is open, after the first startClient. */
    constructor (crypto: bool, restartable: bool, attempt: Attempt)
      ensures Valid() && NotStranded() && fresh(client)
      ensures client.crypto == crypto && this.restartable == restartable && Now() == Started(attempt)
    {
      var c := new Client(crypto);
      c.Connect(attempt);
      client := c;
      this.restartable := restartable;
      restartScheduled, restartTimers, quitQueued := false, 0, false;
    }

    method ScheduleClientRestart()
      requires Valid()
      modifies this`restartScheduled, this`restartTimers
      ensures Valid() && restartScheduled
    {
      if restartScheduled {
        return;
      }
      restartScheduled := true;
      restartTimers := restartTimers + 1;
    }

    method HandleClientRestart(attempt: Attempt)
      requires Valid() && NotStranded() && restartTimers > 0
      modifies this`restartScheduled, this`restartTimers, client
      ensures Valid() && NotStranded() && restartTimers == 0
      ensures client.Now() == Reaching(old(client.Now()), attempt)
      ensures client.suspended == old(client.suspended)
      ensures client.stream == (old(client.stream) || (!client.suspended && attempt == Succeeds))
      ensures !client.stream && client.suspended ==> client.connectOnResume
      ensures client.notices == old(client.notices) + if client.stream || client.suspended then [] else [Failed]
    {
      restartTimers := restartTimers - 1;
      restartScheduled := false;
      client.Connect(attempt);
    }

    /** The application handles the oldest notice of the client. */
    method HandleNotice()
      requires Valid() && NotStranded() && client.notices != []
      modifies this, client`notices
      ensures Valid() && NotStranded() && client.notices == old(client.notices)[1..]
      ensures restartTimers == if old(client.notices)[0] != Ready && restartable then 1 else old(restartTimers)
      ensures quitQueued == (old(quitQueued) || (old(client.notices)[0] != Ready && !restartable))
    {
      var notice := client.notices[0];
      assert client.notices == [notice] + client.notices[1..];
      client.notices := client.notices[1..];
      match notice {
        case Ready =>
        case Failed =>
          if !restartable {
            quitQueued := true;
          } else {
            ScheduleClientRestart();
          }
        case Lost =>
          if !restartable {
            quitQueued := true;
          } else {
            ScheduleClientRestart();
          }
      }
    }

    /**
     * Nothing stays stranded: once the waiting notices and the restart timer have been handled,
     * with a connection attempt that does not fail, there is a stream, or a quit is queued, or
     * the client will connect on resume.
     */
    method Recover()
      requires Valid() && NotStranded()
      modifies this, client
      ensures Valid()
      ensures client.stream || quitQueued || (client.suspended && client.connectOnResume)
    {
      while client.notices != []
        invariant Valid() && NotStranded()
        decreases |client.notices|
      {
        HandleNotice();
      }
      if restartTimers > 0 {
        HandleClientRestart(Succeeds);
      }
    }
  }

  // ---------------------------------------------------------------- whole runs

  datatype Step =
    | FromStream(event: StreamEvent, input: Input)
    | ConnectTimeout
    | KeepAliveAlarm
    | Suspend
    | Resume(attempt: Attempt)
    | Notify
    | Restart(attempt: Attempt)
    | ScreenError

  datatype View = View(stream: bool, timer: bool, server: bool, ready: bool, reported: bool, restartTimers: nat,
                       suspended: bool, connectOnResume: bool, notices: seq<Notice>, quitQueued: bool)

  // ---------------------------------------------------------------- what each step does to the fields

  function Without(v: View, notice: Notice): View {
    v.(stream := false, timer := false, server := false, ready := false, reported := false,
       notices := v.notices + [notice])
  }

  /** An attempt to connect without a stream. */
  function Trying(v: View, attempt: Attempt): View {
    if v.stream then v
    else if v.suspended then v.(connectOnResume := true)
    else if attempt == Succeeds then v.(stream := true, timer := true)
    else v.(notices := v.notices + [Failed])
  }

  /** The commands of a batch up to number `k` are handled, and `k` ends the batch or the connection. */
  ghost predicate Commanded(commands: seq<Command>, k: nat, v: View, w: View) {
    && k <= |commands|
    && (forall i :: 0 <= i < k ==> commands[i] == Handshake || commands[i] == Other)
    && var handshakes := multiset(commands[..k])[Handshake];
       var told := v.(ready := v.ready || handshakes > 0, notices := v.notices + seq(handshakes, _ => Ready));
       if k == |commands| || commands[k] == Refuse then w == told
       else if commands[k] == Close then w == Without(told.(connectOnResume := false), Lost)
       else commands[k] == Fail && w == Without(told.(connectOnResume := false), Failed)
  }

  ghost predicate Heard(crypto: bool, event: StreamEvent, input: Input, v: View, w: View) {
    if !v.stream then w == v
    else if !v.reported then
      match event
      case SocketConnected => w == if crypto then v else v.(reported := true)
      case SecureConnected => w == if crypto then v.(reported := true) else v
      case ConnectionFailed => w == Without(v, Failed)
      case _ => w == v
    else
      match event
      case Disconnected => w == Without(v, Lost)
      case OutputError => w == Without(v, Lost)
      case InputShutdown => w == Without(v, Lost)
      case OutputShutdown => w == Without(v, Lost)
      case InputReady =>
        if v.server then exists k :: Commanded(input.commands, k, v, w)
        else w == if input.helloAccepted then v.(server := true, timer := false) else Without(v, Failed)
      case _ => w == v
  }

  /** What a step does, by the fields of the client and the application. */
  ghost predicate Does(crypto: bool, restartable: bool, step: Step, v: View, w: View) {
    match step
    case FromStream(event, input) => Heard(crypto, event, input, v, w)
    case ConnectTimeout => w == if v.timer then Without(v, Failed) else v
    case KeepAliveAlarm => w == if v.server then Without(v.(connectOnResume := false), Failed) else v
    case Suspend => w == Without(v.(suspended := true, connectOnResume := v.server), Lost)
    case Resume(attempt) =>
      var awake := v.(suspended := false, connectOnResume := false);
      w == if v.connectOnResume then Trying(awake, attempt) else awake
    case Notify =>
      if v.notices == [] then w == v
      else
        var told := v.(notices := v.notices[1..]);
        w == if v.notices[0] == Ready then told
             else if restartable then told.(restartTimers := 1)
             else told.(quitQueued := true)
    case Restart(attempt) => w == if v.restartTimers == 0 then v else Trying(v.(restartTimers := 0), attempt)
    case ScreenError => w == v.(quitQueued := true)
  }

  // ---------------------------------------------------------------- the plain protocol with the application

  /** The client and the application that restarts it. */
  datatype Link = Link(session: Session, restart: bool, quit: bool)

  ghost function Started(first: Attempt): Link {
    Link(Reaching(Session(Resting, false, false, []), first), false, false)
  }

  /** What one step comes to. */
  ghost function Next(crypto: bool, restartable: bool, l: Link, step: Step): Link {
    var s := l.session;
    match step
    case FromStream(event, input) => l.(session := Hearing(crypto, s, event, input))
    case ConnectTimeout => if s.stage.Opened? then l.(session := Ending(s, Failed)) else l
    case KeepAliveAlarm =>
      if s.stage.Joined? then l.(session := Ending(s.(connectOnResume := false), Failed)) else l
    case Suspend => l.(session := Suspending(s))
    case Resume(attempt) => l.(session := Resuming(s, attempt))
    case Notify =>
      if s.notices == [] then l
      else
        var l' := l.(session := s.(notices := s.notices[1..]));
        if s.notices[0] == Ready then l' else if restartable then l'.(restart := true) else l'.(quit := true)
    case Restart(attempt) => if l.restart then l.(session := Reaching(s, attempt), restart := false) else l
    case ScreenError => l.(quit := true)
  }

  ghost function Runs(crypto: bool, restartable: bool, first: Attempt, steps: seq<Step>): Link {
    if steps == [] then Started(first)
    else Next(crypto, restartable, Runs(crypto, restartable, first, steps[..|steps| - 1]), steps[|steps| - 1])
  }

  /** The step is a secure report after hello. */
  predicate Breaking(crypto: bool, l: Link, step: Step) {
    step.FromStream? && Breaks(crypto, l.session.stage, step.event)
  }

  /** Something is under way, or will be as soon as the system resumes. */
  ghost predicate Going(l: Link) {
    || l.session.stage != Resting
    || l.restart
    || Failed in l.session.notices || Lost in l.session.notices
    || (l.session.suspended && l.session.connectOnResume)
    || l.quit
  }

  lemma {:induction false} ObeyingGoesOn(s: Session, commands: seq<Command>)
    requires s.stage.Joined?
    ensures var t := Obeying(s, commands);
            t.stage.Joined? || Failed in t.notices || Lost in t.notices
    decreases |commands|
  {
    if commands != [] {
      match commands[0]
      case Handshake =>
        ObeyingGoesOn(s.(stage := Joined(true), notices := s.notices + [Ready]), commands[1..]);
      case Other =>
        ObeyingGoesOn(s, commands[1..]);
      case _ =>
    }
  }

  /** No step strands the client. */
  lemma NextGoesOn(crypto: bool, restartable: bool, l: Link, step: Step)
    requires Going(l)
    ensures Going(Next(crypto, restartable, l, step))
  {
    var s := l.session;
    if s.stage.Joined? && step.FromStream? {
      ObeyingGoesOn(s, step.input.commands);
    } else if step.Notify? && s.notices != [] {
      assert s.notices == [s.notices[0]] + s.notices[1..];
    }
  }

  /** Over every run the client is never stranded, and one that may restart quits only on a screen error. */
  lemma {:induction false} NeverStranded(crypto: bool, restartable: bool, first: Attempt, steps: seq<Step>)
    ensures Going(Runs(crypto, restartable, first, steps))
    ensures restartable ==> (Runs(crypto, restartable, first, steps).quit <==> ScreenError in steps)
  {
    if steps != [] {
      hide Next, Going;
      var init, last := steps[..|steps| - 1], steps[|steps| - 1];
      NeverStranded(crypto, restartable, first, init);
      NextGoesOn(crypto, restartable, Runs(crypto, restartable, first, init), last);
      NextQuits(crypto, restartable, Runs(crypto, restartable, first, init), last);
      LastOrBefore(steps);
    }
  }

  lemma NextQuits(crypto: bool, restartable: bool, l: Link, step: Step)
    ensures restartable ==> Next(crypto, restartable, l, step).quit == (l.quit || step.ScreenError?)
  {
    hide Hearing;
  }

  lemma LastOrBefore(steps: seq<Step>)
    requires steps != []
    ensures ScreenError in steps <==> ScreenError in steps[..|steps| - 1] || steps[|steps| - 1].ScreenError?
  {
    assert steps == steps[..|steps| - 1] + [steps[|steps| - 1]];
  }

  /**
   * One thing that the event loop dispatches, if it can happen now.  It does what the plain
   * protocol says, and keeps the three phases unless it is a secure report after hello.
   */
  method Happen(app: ClientApp, step: Step)
    requires app.Valid() && app.NotStranded()
    modifies app, app.client
    ensures app.Valid() <==> !Breaking(app.client.crypto, old(app.Now()), step)
    ensures app.Valid() ==>
              && app.Now() == Next(app.client.crypto, app.restartable, old(app.Now()), step)
              && app.NotStranded()
              && Does(app.client.crypto, app.restartable, step, old(app.Look()), app.Look())
  {
    hide Going, Hearing, Does, ViewOf, Next;
    app.LooksAlike();
    if !Breaking(app.client.crypto, app.Now(), step) {
      NextDoes(app.client.crypto, app.restartable, app.Now(), step);
    }
    Handle(app, step);
    if app.Valid() {
      app.LooksAlike();
    }
  }

  /** The handler of a step. */
  method Handle(app: ClientApp, step: Step)
    requires app.Valid() && app.NotStranded()
    modifies app, app.client
    ensures app.Valid() <==> !Breaking(app.client.crypto, old(app.Now()), step)
    ensures app.Valid() ==>
              && app.Now() == Next(app.client.crypto, app.restartable, old(app.Now()), step)
              && app.NotStranded()
  {
    hide Going, Hearing;
    var c := app.client;
    NextGoesOn(c.crypto, app.restartable, app.Now(), step);
    match step {
      case FromStream(event, input) =>
        c.Dispatch(event, input);
      case ConnectTimeout =>
        if c.timer { c.HandleConnectTimeout(); }
      case KeepAliveAlarm =>
        if c.server { c.Disconnect(true); }
      case Suspend =>
        c.HandleSuspend();
      case Resume(attempt) =>
        c.HandleResume(attempt);
      case Notify =>
        if c.notices != [] { app.HandleNotice(); }
      case Restart(attempt) =>
        if app.restartTimers > 0 { app.HandleClientRestart(attempt); }
      case ScreenError =>
        app.quitQueued := true;
    }
  }

  /**
   * Every run, up to the first secure report after hello, if there is one: the client is that of
   * the plain protocol, exactly idle, connecting or connected, and never stranded.
   */
  method Run(crypto: bool, restartable: bool, first: Attempt, steps: seq<Step>)
    returns (views: seq<View>, done: nat)
    ensures done <= |steps| && |views| == done + 1
    ensures done < |steps| ==> Breaking(crypto, Runs(crypto, restartable, first, steps[..done]), steps[done])
    ensures views[0] == Trying(View(false, false, false, false, false, 0, false, false, [], false), first)
    ensures forall i :: 0 <= i < done ==> Does(crypto, restartable, steps[i], views[i], views[i + 1])
    ensures forall i :: 0 <= i <= done ==> Sane(views[i]) && UnderWay(views[i])
    ensures forall i :: 0 <= i < done && steps[i].ConnectTimeout? ==>
              !views[i + 1].timer && (views[i].timer ==> !views[i + 1].stream && Failed in views[i + 1].notices)
    ensures views[done] == ViewOf(Runs(crypto, restartable, first, steps[..done]))
    ensures restartable ==> (views[done].quitQueued <==> ScreenError in steps[..done])
  {
    hide Runs, Next, Does, Sane, UnderWay, Going, ViewOf;
    Beginning(first);
    var app := new ClientApp(crypto, restartable, first);
    done := 0;
    RunsStep(crypto, restartable, first, steps, 0);
    app.LooksAlike();
    Viewed(app.Now());
    var c := app.client;
    views := [app.Look()];
    while done < |steps|
      invariant 0 <= done <= |steps| && app.client == c && |views| == done + 1
      invariant app.Valid() && app.NotStranded() && fresh(app) && fresh(c) && app.restartable == restartable
      invariant c.crypto == crypto && app.Now() == Runs(crypto, restartable, first, steps[..done])
      invariant views[done] == app.Look()
      invariant views[0] == Trying(View(false, false, false, false, false, 0, false, false, [], false), first)
      invariant forall i :: 0 <= i < done ==> Does(crypto, restartable, steps[i], views[i], views[i + 1])
      invariant forall i :: 0 <= i <= done ==> Sane(views[i]) && UnderWay(views[i])
    {
      RunsStep(crypto, restartable, first, steps, done);
      if steps[done].FromStream? && c.crypto && c.server && steps[done].event == SecureConnected {
        break;
      }
      Happen(app, steps[done]);
      Viewed(app.Now());
      app.LooksAlike();
      views := views + [app.Look()];
      done := done + 1;
    }
    app.LooksAlike();
    NeverStranded(crypto, restartable, first, steps[..done]);
    forall i | 0 <= i < done && steps[i].ConnectTimeout?
      ensures !views[i + 1].timer && (views[i].timer ==> !views[i + 1].stream && Failed in views[i + 1].notices)
    {
      TimeoutEnds(crypto, restartable, views[i], views[i + 1]);
    }
  }

  /** Exactly idle, connecting or connected, and ready only when connected. */
  predicate Sane(v: View) {
    && v.timer == (v.stream && !v.server) && (v.server ==> v.stream && v.reported)
    && (v.ready ==> v.server) && (v.reported ==> v.stream) && v.restartTimers <= 1
  }

  /** Something is under way, by the fields. */
  predicate UnderWay(v: View) {
    v.stream || v.restartTimers == 1 || Failed in v.notices || Lost in v.notices
    || (v.suspended && v.connectOnResume) || v.quitQueued
  }

  lemma Beginning(first: Attempt)
    ensures ViewOf(Started(first)) == Trying(View(false, false, false, false, false, 0, false, false, [], false), first)
  {
  }

  lemma Viewed(l: Link)
    ensures Sane(ViewOf(l)) && (Going(l) ==> UnderWay(ViewOf(l)))
  {
  }

  /** Directly after a connect timeout no run is connecting, and a failure has been sent if it was. */
  lemma TimeoutEnds(crypto: bool, restartable: bool, v: View, w: View)
    requires Sane(v) && Does(crypto, restartable, ConnectTimeout, v, w)
    ensures !w.timer && (v.timer ==> !w.stream && Failed in w.notices)
  {
  }

  /** What can be seen of the plain protocol. */
  ghost function ViewOf(l: Link): View {
    var s := l.session;
    View(s.stage != Resting, s.stage.Opened?, s.stage.Joined?, s.stage == Joined(true),
         s.stage.Joined? || s.stage == Opened(true), if l.restart then 1 else 0,
         s.suspended, s.connectOnResume, s.notices, l.quit)
  }

  /** A command that does not end the batch is put in front. */
  lemma CommandedBefore(c: Command, rest: seq<Command>, j: nat, v: View, u: View, w: View)
    requires c == Handshake || c == Other
    requires u == if c == Handshake then v.(ready := true, notices := v.notices + [Ready]) else v
    requires Commanded(rest, j, u, w)
    ensures Commanded([c] + rest, j + 1, v, w)
  {
    var commands, n := [c] + rest, multiset(rest[..j])[Handshake];
    assert commands[..j + 1] == [c] + rest[..j];
    assert multiset(commands[..j + 1])[Handshake] == if c == Handshake then n + 1 else n;
    assert v.notices + [Ready] + seq(n, _ => Ready) == v.notices + seq(n + 1, _ => Ready);
    assert j < |rest| ==> commands[j + 1] == rest[j];
  }

  lemma CommandedAtOnce(commands: seq<Command>, v: View, w: View)
    requires if commands == [] || commands[0] == Refuse then w == v
             else if commands[0] == Close then w == Without(v.(connectOnResume := false), Lost)
             else commands[0] == Fail && w == Without(v.(connectOnResume := false), Failed)
    ensures Commanded(commands, 0, v, w)
  {
    assert commands[..0] == [] && v.notices + seq(0, _ => Ready) == v.notices;
  }

  lemma EndingView(l: Link)
    ensures forall notice ::
              ViewOf(l.(session := Ending(l.session.(connectOnResume := false), notice)))
              == Without(ViewOf(l).(connectOnResume := false), notice)
  {
  }

  lemma {:induction false} ObeyingCommands(l: Link, commands: seq<Command>) returns (k: nat)
    requires l.session.stage.Joined?
    ensures Commanded(commands, k, ViewOf(l), ViewOf(l.(session := Obeying(l.session, commands))))
    decreases |commands|
  {
    hide Commanded, Without;
    var s, w := l.session, ViewOf(l.(session := Obeying(l.session, commands)));
    if commands == [] || commands[0] == Close || commands[0] == Fail || commands[0] == Refuse {
      k := 0;
      EndingView(l);
      CommandedAtOnce(commands, ViewOf(l), w);
    } else {
      var s' := if commands[0] == Handshake then s.(stage := Joined(true), notices := s.notices + [Ready]) else s;
      var j := ObeyingCommands(l.(session := s'), commands[1..]);
      k := j + 1;
      CommandedBefore(commands[0], commands[1..], j, ViewOf(l), ViewOf(l.(session := s')), w);
      assert commands == [commands[0]] + commands[1..];
    }
  }

  lemma HearingWhenOpened(crypto: bool, l: Link, event: StreamEvent, input: Input)
    requires l.session.stage.Opened? && !l.session.stage.reported
    ensures Heard(crypto, event, input, ViewOf(l), ViewOf(l.(session := Hearing(crypto, l.session, event, input))))
  {
    hide Commanded, Obeying;
  }

  lemma HearingWhenReported(crypto: bool, l: Link, event: StreamEvent, input: Input)
    requires l.session.stage.Opened? && l.session.stage.reported
    ensures Heard(crypto, event, input, ViewOf(l), ViewOf(l.(session := Hearing(crypto, l.session, event, input))))
  {
    hide Commanded, Obeying;
  }

  lemma HearingWhenJoined(crypto: bool, l: Link, event: StreamEvent, input: Input)
    requires l.session.stage.Joined? && !Breaks(crypto, l.session.stage, event)
    ensures Heard(crypto, event, input, ViewOf(l), ViewOf(l.(session := Hearing(crypto, l.session, event, input))))
  {
    hide Commanded, Obeying;
    if event == InputReady {
      var k := ObeyingCommands(l, input.commands);
    }
  }

  lemma HearingHeard(crypto: bool, l: Link, event: StreamEvent, input: Input)
    requires !Breaks(crypto, l.session.stage, event)
    ensures Heard(crypto, event, input, ViewOf(l), ViewOf(l.(session := Hearing(crypto, l.session, event, input))))
  {
    match l.session.stage
    case Resting =>
    case Opened(reported) =>
      hide Heard, Hearing, ViewOf;
      if reported {
        HearingWhenReported(crypto, l, event, input);
      } else {
        HearingWhenOpened(crypto, l, event, input);
      }
    case Joined(_) =>
      hide Heard, Hearing, ViewOf;
      HearingWhenJoined(crypto, l, event, input);
  }

  lemma ReachingTries(l: Link, attempt: Attempt)
    ensures ViewOf(l.(session := Reaching(l.session, attempt))) == Trying(ViewOf(l), attempt)
  {
  }

  lemma EndingSeen(l: Link, notice: Notice)
    ensures ViewOf(l.(session := Ending(l.session, notice))) == Without(ViewOf(l), notice)
  {
  }

  lemma NotifySeen(crypto: bool, restartable: bool, l: Link)
    ensures Does(crypto, restartable, Notify, ViewOf(l), ViewOf(Next(crypto, restartable, l, Notify)))
  {
  }

  /** The plain protocol does to what can be seen what each step is to do to the fields. */
  lemma NextDoes(crypto: bool, restartable: bool, l: Link, step: Step)
    requires !Breaking(crypto, l, step)
    ensures Does(crypto, restartable, step, ViewOf(l), ViewOf(Next(crypto, restartable, l, step)))
  {
    var s := l.session;
    match step
    case FromStream(event, input) =>
      hide Heard, Hearing;
      HearingHeard(crypto, l, event, input);
    case Resume(attempt) =>
      hide Reaching, Trying;
      ReachingTries(l.(session := s.(suspended := false, connectOnResume := false)), attempt);
    case Restart(attempt) =>
      hide Reaching, Trying;
      ReachingTries(l.(restart := false), attempt);
    case Notify =>
      NotifySeen(crypto, restartable, l);
    case ConnectTimeout =>
      hide Ending, Without;
      EndingSeen(l, Failed);
    case KeepAliveAlarm =>
      hide Ending, Without;
      EndingSeen(l.(session := s.(connectOnResume := false)), Failed);
    case Suspend =>
      hide Ending, Without;
      EndingSeen(l.(session := s.(suspended := true, connectOnResume := s.stage.Joined?)), Lost);
    case ScreenError =>
  }

  lemma RunsStep(crypto: bool, restartable: bool, first: Attempt, steps: seq<Step>, i: nat)
    requires i <= |steps|
    ensures Runs(crypto, restartable, first, steps[..0]) == Started(first)
    ensures i < |steps| ==>
              Runs(crypto, restartable, first, steps[..i + 1])
              == Next(crypto, restartable, Runs(crypto, restartable, first, steps[..i]), steps[i])
  {
    if i < |steps| {
      assert steps[..i + 1][..i] == steps[..i];
    }
  }

  /** Another secure report after hello: the stream's input goes back to hello, with the proxy still there. */
  method SecondReportBreaks() returns (server: bool, input: Handler)
    ensures server && input == OnHello
  {
    var c := new Client(true);
    c.Connect(Succeeds);
    c.Dispatch(SecureConnected, Input(true, []));
    c.Dispatch(InputReady, Input(true, []));
    c.HandleConnected();
    server, input := c.server, c.handlers[InputReady];
  }
}
