/** The session: the command table, the states it moves between, the selected
    mailbox, TLS and the capabilities offered.  Whatever the client sends and
    whatever the outside world answers, what holds in every state that can be
    reached. */
module Session {
  import opened Text

  // ----- states and commands -----

  const NONE := 0
  const NONAUTH := 1
  const AUTH := 2
  const SEL := 4
  const LOGGED_OUT := 8

  datatype Command =
    | CAPABILITY | NOOP | LOGOUT | AUTHENTICATE | LOGIN | SELECT | EXAMINE
    | CREATE | DELETE | RENAME | SUBSCRIBE | UNSUBSCRIBE | LIST | LSUB | STATUS
    | APPEND | CHECK | CLOSE | UNSELECT | EXPUNGE | SEARCH | FETCH | STORE | COPY
    | UID | NAMESPACE | ID | IDLE | STARTTLS

  /** The columns of `imap4d_command_table`. */
  function States(c: Command): set<nat> {
    match c
    case CAPABILITY | NOOP | LOGOUT => {NONAUTH, AUTH, SEL, LOGGED_OUT}
    case AUTHENTICATE | LOGIN | STARTTLS => {NONAUTH}
    case SELECT | EXAMINE | CREATE | DELETE | RENAME | SUBSCRIBE | UNSUBSCRIBE | LIST | LSUB | STATUS | APPEND
      | NAMESPACE | ID => {AUTH, SEL}
    case CHECK | CLOSE | UNSELECT | EXPUNGE | SEARCH | FETCH | STORE | COPY | UID | IDLE => {SEL}
  }

  function Failure(c: Command): nat {
    match c
    case LOGOUT => LOGGED_OUT
    case SELECT | EXAMINE | CLOSE | UNSELECT => AUTH
    case _ => NONE
  }

  function Success(c: Command): nat {
    match c
    case AUTHENTICATE | LOGIN | CLOSE | UNSELECT => AUTH
    case SELECT | EXAMINE => SEL
    case _ => NONE
  }

  datatype Response = Ok | No | Bad

  /** A completion response; the answer to an empty line has no tag to bear. */
  datatype Answer = Tagged(response: Response) | Untagged(response: Response)

  /** The end of `io_format_completion_response`. */
  function NextState(state: nat, c: Command, rc: Response): nat {
    var new1 :=
      if rc == Ok then Success(c)
      else if Failure(c) <= state then Failure(c)
      else NONE;
    if new1 != NONE then new1 else state
  }

  // ----- TLS -----

  datatype TlsMode = Unspecified | NoTls | OnDemand | Required | Connection

  datatype Capability = StartTls | LoginDisabled | XTlsRequired

  datatype TlsCheck = CheckOk | CheckNull | CheckFailed

  /** The configuration of TLS for a server: its own mode and certificate, what checking
      its files comes to, and the same for all servers. */
  datatype TlsConfig = TlsConfig(
    mode: TlsMode,
    certificate: bool,
    check: TlsCheck,
    globalMode: TlsMode,
    globalCheck: TlsCheck)

  /** The mode `starttls_server_check` leaves in the configuration. */
  function Resolve(cfg: TlsConfig): (mode: TlsMode)
    ensures mode != Unspecified
    ensures cfg.mode != Unspecified ==> mode == cfg.mode
  {
    if cfg.mode != Unspecified then cfg.mode
    else if cfg.globalMode != Unspecified then cfg.globalMode
    else if cfg.certificate then OnDemand
    else NoTls
  }

  /** The mode is left at `tls_no` without a look at the certificates. */
  predicate WithoutTls(cfg: TlsConfig) {
    cfg.mode == NoTls || (cfg.mode == Unspecified && cfg.globalMode == Unspecified && !cfg.certificate)
  }

  /** `starttls_server_check`, without which no server comes up. */
  function ServerCheck(cfg: TlsConfig): TlsCheck {
    if WithoutTls(cfg) then CheckNull
    else
      match cfg.check
      case CheckOk => if cfg.certificate then CheckOk else CheckFailed
      case CheckNull => if cfg.globalCheck != CheckNull then CheckOk else CheckFailed
      case CheckFailed => CheckFailed
  }

  // ----- the world outside -----

  /** What an authentication handler reports: it is unknown, it has completed the
      command itself, it names a user, or it fails. */
  datatype AuthResult = Unsupported | Completed | Named(setupOk: bool) | Failed

  /** What opening a mailbox comes to. */
  datatype OpenResult = NoName | NotOpened | NoStatus | Opened

  /** Everything a command may meet. */
  datatype World = World(
    userOk: bool,
    auth: AuthResult,
    open: OpenResult,
    closeOk: bool,
    handshakeOk: bool,
    reply: Response)

  /** One command line: nothing, a tag alone, an unknown word, or a command with the
      right or wrong number of arguments. */
  datatype Line =
    | Empty | TagOnly | Unknown
    | Known(command: Command, argsOk: bool)

  // ----- the state of a session -----

  datatype SessionState = SessionState(
    state: nat,
    mailbox: bool,
    user: bool,
    tls: TlsMode,
    encrypted: bool,
    loginDisabled: bool,
    capabilities: set<Capability>)

  /** A step gives the session after it, or ends the connection; and the completion
      responses sent. */
  datatype Step = Step(next: Option<SessionState>, sent: seq<Answer>)

  /** How a server starts: with a configuration that has been checked, and a greeting.
      `preauth` says how pre-authentication came out, if it is in use. */
  function Start(cfg: TlsConfig, loginDisabled: bool, preauth: Option<bool>, preauthOnly: bool): Option<SessionState> {
    if ServerCheck(cfg).CheckFailed? then None else Greeting(Resolve(cfg), loginDisabled, preauth, preauthOnly)
  }

  /** `imap4d_mainloop` up to the loop. */
  function Greeting(mode: TlsMode, loginDisabled: bool, preauth: Option<bool>, preauthOnly: bool): Option<SessionState> {
    var capas :=
      (if loginDisabled then {LoginDisabled} else {})
      + (if mode == Required then {XTlsRequired, StartTls} else if mode == OnDemand then {StartTls} else {});
    var s := SessionState(NONAUTH, false, false, mode, false, loginDisabled, capas);
    var t := if mode == Connection then EncryptionOn(s) else s;
    if preauth == Some(true) then Some(t.(state := AUTH, user := true))
    else if preauth.Some? && preauthOnly then None
    else Some(t)
  }

  /** `tls_encryption_on`. */
  function EncryptionOn(s: SessionState): SessionState {
    s.(tls := NoTls, encrypted := true, loginDisabled := false,
       capabilities := s.capabilities - {StartTls, LoginDisabled, XTlsRequired})
  }

  /** `io_completion_response` at the end of a command. */
  function Complete(s: SessionState, c: Command, rc: Response): Step {
    Step(Some(s.(state := NextState(s.state, c, rc))), [Tagged(rc)])
  }

  function DoLogin(s: SessionState, w: World, argsOk: bool): Step {
    if s.loginDisabled || s.tls == Required then Complete(s, LOGIN, No)
    else if !argsOk then Complete(s, LOGIN, Bad)
    else if !w.userOk then Complete(s, LOGIN, No)
    else Complete(s.(user := true), LOGIN, Ok)
  }

  function DoAuthenticate(s: SessionState, w: World, argsOk: bool): Step {
    if !argsOk then Complete(s, AUTHENTICATE, Bad)
    else if s.tls == Required then Complete(s, AUTHENTICATE, No)
    else
      match w.auth
      case Unsupported => Complete(s, AUTHENTICATE, No)
      case Completed => Complete(s.(user := true), AUTHENTICATE, Ok)
      case Named(true) => Complete(s.(user := true), AUTHENTICATE, Ok)
      case Named(false) => Complete(s, AUTHENTICATE, No)
      case Failed => Complete(s, AUTHENTICATE, No)
  }

  /** `imap4d_select0`: the old mailbox is closed first; success is answered
      without `io_completion_response`. */
  function DoSelect(s: SessionState, c: Command, w: World, argsOk: bool): Step {
    if !argsOk then Complete(s, c, Bad)
    else
      var closed := s.(mailbox := false);
      match w.open
      case NoName => Complete(closed, c, No)
      case NotOpened => Complete(closed, c, No)
      case NoStatus => Complete(closed.(state := SEL), c, No)
      case Opened => Step(Some(closed.(state := SEL, mailbox := true)), [Tagged(Ok)])
  }

  function DoClose(s: SessionState, c: Command, w: World, argsOk: bool): Step {
    if !argsOk then Complete(s, c, Bad)
    else Complete(s.(mailbox := false), c, if w.closeOk then Ok else No)
  }

  function DoStartTls(s: SessionState, w: World, argsOk: bool): Step {
    if s.tls == NoTls then Complete(s, STARTTLS, Bad)
    else if !argsOk then Complete(s, STARTTLS, Bad)
    else
      var r := Complete(s, STARTTLS, Ok);
      if w.handshakeOk then Step(Some(EncryptionOn(r.next.value)), r.sent) else Step(None, r.sent)
  }

  function DoLogout(s: SessionState, argsOk: bool): Step {
    if !argsOk then Complete(s, LOGOUT, Bad) else Step(None, [Tagged(Ok)])
  }

  /** The handler of a command. */
  function Handle(s: SessionState, c: Command, argsOk: bool, w: World): Step {
    if c == LOGIN then DoLogin(s, w, argsOk)
    else if c == AUTHENTICATE then DoAuthenticate(s, w, argsOk)
    else if c == SELECT || c == EXAMINE then DoSelect(s, c, w, argsOk)
    else if c == CLOSE || c == UNSELECT then DoClose(s, c, w, argsOk)
    else if c == STARTTLS then DoStartTls(s, w, argsOk)
    else if c == LOGOUT then DoLogout(s, argsOk)
    else Complete(s, c, if argsOk then w.reply else Bad)
  }

  /** `util_do_command`. */
  function Do(s: SessionState, line: Line, w: World): Step {
    match line
    case Empty => Step(Some(s), [Untagged(Bad)])
    case TagOnly => Step(Some(s), [Tagged(Bad)])
    case Unknown => Step(Some(s), [Tagged(Bad)])
    case Known(c, argsOk) => if s.state !in States(c) then Complete(s, c, Bad) else Handle(s, c, argsOk, w)
  }

  datatype Input = Input(line: Line, world: World)

  /** A whole run: the session after it, or none once the connection is closed. */
  function Run(s: SessionState, inputs: seq<Input>): Option<SessionState>
    decreases |inputs|
  {
    if inputs == [] then Some(s)
    else
      match Do(s, inputs[0].line, inputs[0].world).next
      case None => None
      case Some(t) => Run(t, inputs[1..])
  }

  // ----- what always holds -----

  predicate Safe(s: SessionState) {
    && s.state in {NONAUTH, AUTH, SEL}
    && (s.state == SEL ==> s.mailbox)
    && (s.state != NONAUTH ==> s.user)
    && (s.mailbox ==> s.state != NONAUTH)
    && (LoginDisabled in s.capabilities <==> s.loginDisabled)
    && (StartTls in s.capabilities <==> s.tls in {OnDemand, Required})
    && (XTlsRequired in s.capabilities <==> s.tls == Required)
    && s.tls != Connection && s.tls != Unspecified
    && (s.encrypted ==> s.tls == NoTls && !s.loginDisabled)
  }

  lemma StartIsSafe(cfg: TlsConfig, loginDisabled: bool, preauth: Option<bool>, preauthOnly: bool)
    ensures var s := Start(cfg, loginDisabled, preauth, preauthOnly); s.Some? ==> Safe(s.value)
  {
  }

  /** One tagged response. */
  predicate Answered(r: Step) {
    |r.sent| == 1 && r.sent[0].Tagged?
  }

  /** Completing a command with a failure never leads into a state that was not
      reached already. */
  lemma FailureKeepsSafe(s: SessionState, c: Command, rc: Response)
    requires Safe(s) && rc != Ok
    ensures NextState(s.state, c, rc) == s.state || (s.state == SEL && NextState(s.state, c, rc) == AUTH)
    ensures Safe(Complete(s, c, rc).next.value)
  {
  }

  lemma SelectIsSafe(s: SessionState, c: Command, w: World, argsOk: bool)
    requires Safe(s) && (c == SELECT || c == EXAMINE) && s.state in {AUTH, SEL}
    ensures var r := DoSelect(s, c, w, argsOk); r.next.Some? && Safe(r.next.value) && Answered(r)
  {
  }

  lemma CloseIsSafe(s: SessionState, c: Command, w: World, argsOk: bool)
    requires Safe(s) && (c == CLOSE || c == UNSELECT) && s.state == SEL
    ensures var r := DoClose(s, c, w, argsOk); r.next.Some? && Safe(r.next.value) && Answered(r)
  {
  }

  lemma LoginIsSafe(s: SessionState, w: World, argsOk: bool)
    requires Safe(s) && s.state == NONAUTH
    ensures var r := DoLogin(s, w, argsOk); r.next.Some? && Safe(r.next.value) && Answered(r)
    ensures var r := DoAuthenticate(s, w, argsOk); r.next.Some? && Safe(r.next.value) && Answered(r)
  {
  }

  lemma StartTlsIsSafe(s: SessionState, w: World, argsOk: bool)
    requires Safe(s) && s.state == NONAUTH
    ensures var r := DoStartTls(s, w, argsOk); (r.next.Some? ==> Safe(r.next.value)) && Answered(r)
  {
  }

  /** Commands that do not move the session. */
  predicate Plain(c: Command) {
    c !in {LOGIN, AUTHENTICATE, SELECT, EXAMINE, CLOSE, UNSELECT, STARTTLS, LOGOUT}
  }

  lemma PlainKeepsSession(s: SessionState, c: Command, rc: Response)
    requires Plain(c)
    ensures Complete(s, c, rc) == Step(Some(s), [Tagged(rc)])
  {
    assert Success(c) == NONE && Failure(c) == NONE;
  }

  lemma StepIsSafe(s: SessionState, line: Line, w: World)
    requires Safe(s)
    ensures Do(s, line, w).next.Some? ==> Safe(Do(s, line, w).next.value)
    ensures |Do(s, line, w).sent| == 1
    ensures Do(s, line, w).sent[0].Tagged? <==> line != Empty
  {
    hide Safe, Complete, DoLogin, DoAuthenticate, DoSelect, DoClose, DoStartTls;
    if line.Known? {
      var c, ok := line.command, line.argsOk;
      FailureIsSafe(s, c);
      if s.state in States(c) {
        match c
        case LOGIN => LoginIsSafe(s, w, ok);
        case AUTHENTICATE => LoginIsSafe(s, w, ok);
        case SELECT => SelectIsSafe(s, c, w, ok);
        case EXAMINE => SelectIsSafe(s, c, w, ok);
        case CLOSE => CloseIsSafe(s, c, w, ok);
        case UNSELECT => CloseIsSafe(s, c, w, ok);
        case STARTTLS => StartTlsIsSafe(s, w, ok);
        case LOGOUT =>
        case _ => PlainKeepsSession(s, c, if ok then w.reply else Bad);
      }
    }
  }

  lemma FailureIsSafe(s: SessionState, c: Command)
    requires Safe(s)
    ensures var r := Complete(s, c, Bad); r.next.Some? && Safe(r.next.value) && Answered(r)
  {
    FailureKeepsSafe(s, c, Bad);
  }

  /** Every run of every session is safe. */
  lemma {:induction false} RunIsSafe(s: SessionState, inputs: seq<Input>)
    requires Safe(s)
    ensures Run(s, inputs).Some? ==> Safe(Run(s, inputs).value)
    decreases |inputs|
  {
    if inputs != [] {
      StepIsSafe(s, inputs[0].line, inputs[0].world);
      var t := Do(s, inputs[0].line, inputs[0].world).next;
      if t.Some? { RunIsSafe(t.value, inputs[1..]); }
    }
  }

  // ----- authentication -----

  /** A command in the wrong state is refused and changes nothing. */
  lemma WrongStateChangesNothing(s: SessionState, c: Command, argsOk: bool, w: World)
    requires Safe(s) && s.state !in States(c)
    ensures Do(s, Known(c, argsOk), w) == Step(Some(s), [Tagged(Bad)])
  {
  }

  /** No handler that works on mailboxes is reached by a stranger, and none that
      works on the selected mailbox without one. */
  lemma AccessIsAuthenticated(s: SessionState, c: Command)
    requires Safe(s) && s.state in States(c)
    ensures NONAUTH !in States(c) ==> s.user
    ensures States(c) == {SEL} ==> s.mailbox
  {
  }

  /** The world vouches for a user. */
  predicate Earns(i: Input) {
    && i.line.Known? && i.line.argsOk
    && (i.line.command == LOGIN ==> i.world.userOk)
    && (i.line.command == AUTHENTICATE ==> i.world.auth == Completed || i.world.auth == Named(true))
    && (i.line.command == LOGIN || i.line.command == AUTHENTICATE)
  }

  lemma RefusedStays(s: SessionState, c: Command, rc: Response)
    requires s.state == NONAUTH && rc != Ok
    ensures Complete(s, c, rc).next == Some(s)
  {
  }

  lemma StepEarns(s: SessionState, i: Input)
    requires Safe(s) && s.state == NONAUTH
    ensures var t := Do(s, i.line, i.world).next;
      t.Some? && t.value.state != NONAUTH ==> Earns(i) && s.tls != Required
  {
    hide Safe, NextState, Complete;
    if i.line.Known? {
      var c := i.line.command;
      RefusedStays(s, c, Bad);
      RefusedStays(s, c, No);
      if c == STARTTLS {
        OfferStays(s);
      } else if Plain(c) {
        PlainKeepsSession(s, c, if i.line.argsOk then i.world.reply else Bad);
      }
    }
  }

  lemma OfferStays(s: SessionState)
    requires s.state == NONAUTH
    ensures Complete(s, STARTTLS, Ok).next == Some(s)
  {
  }

  /** In no run does a session leave the not authenticated state unless some LOGIN
      or AUTHENTICATE of that run was vouched for. */
  lemma {:induction false} AuthenticationIsEarned(s: SessionState, inputs: seq<Input>)
    requires Safe(s) && s.state == NONAUTH && Run(s, inputs).Some? && Run(s, inputs).value.state != NONAUTH
    ensures exists k :: 0 <= k < |inputs| && Earns(inputs[k])
    decreases |inputs|
  {
    hide Do, Safe, Earns;
    if inputs != [] {
      var t := Do(s, inputs[0].line, inputs[0].world).next;
      StepIsSafe(s, inputs[0].line, inputs[0].world);
      StepEarns(s, inputs[0]);
      if t.value.state == NONAUTH {
        AuthenticationIsEarned(t.value, inputs[1..]);
        var k :| 0 <= k < |inputs[1..]| && Earns(inputs[1..][k]);
        assert inputs[k + 1] == inputs[1..][k];
      }
    }
  }

  lemma StepStaysAuthenticated(s: SessionState, line: Line, w: World)
    requires Safe(s) && s.state != NONAUTH
    ensures Do(s, line, w).next.Some? ==> Do(s, line, w).next.value.state != NONAUTH
  {
    if line.Known? {
      FailureKeepsSafe(s, line.command, Bad);
      FailureKeepsSafe(s, line.command, No);
    }
  }

  /** Once authenticated, a session stays so. */
  lemma {:induction false} StaysAuthenticated(s: SessionState, inputs: seq<Input>)
    requires Safe(s) && s.state != NONAUTH && Run(s, inputs).Some?
    ensures Run(s, inputs).value.state != NONAUTH
    decreases |inputs|
  {
    hide Do, Safe;
    if inputs != [] {
      StepIsSafe(s, inputs[0].line, inputs[0].world);
      StepStaysAuthenticated(s, inputs[0].line, inputs[0].world);
      StaysAuthenticated(Do(s, inputs[0].line, inputs[0].world).next.value, inputs[1..]);
    }
  }

  // ----- TLS -----

  /** Encrypted, or still waiting for it. */
  predicate Guarded(s: SessionState) {
    s.encrypted || (s.tls == Required && s.state == NONAUTH)
  }

  lemma StepIsGuarded(s: SessionState, i: Input)
    requires Safe(s) && Guarded(s)
    ensures var t := Do(s, i.line, i.world).next; t.Some? ==> Guarded(t.value)
  {
    hide Safe, Do, Earns;
    StepKeepsTls(s, i);
    if !s.encrypted { StepEarns(s, i); }
  }

  predicate KeepsTls(s: SessionState, t: SessionState) {
    (t.tls == s.tls && t.encrypted == s.encrypted) || t.encrypted
  }

  lemma CompleteKeepsTls(s: SessionState, c: Command, rc: Response)
    ensures Complete(s, c, rc).next.Some? && KeepsTls(s, Complete(s, c, rc).next.value)
  {
  }

  lemma LoginKeepsTls(s: SessionState, w: World, argsOk: bool)
    ensures var r := DoLogin(s, w, argsOk); r.next.Some? && KeepsTls(s, r.next.value)
    ensures var r := DoAuthenticate(s, w, argsOk); r.next.Some? && KeepsTls(s, r.next.value)
  {
    hide NextState;
  }

  lemma SelectKeepsTls(s: SessionState, c: Command, w: World, argsOk: bool)
    ensures var r := DoSelect(s, c, w, argsOk); r.next.Some? && KeepsTls(s, r.next.value)
  {
    hide Complete;
    var closed := s.(mailbox := false);
    CompleteKeepsTls(s, c, Bad);
    CompleteKeepsTls(closed, c, No);
    CompleteKeepsTls(closed.(state := SEL), c, No);
  }

  lemma CloseKeepsTls(s: SessionState, c: Command, w: World, argsOk: bool)
    ensures var r := DoClose(s, c, w, argsOk); r.next.Some? && KeepsTls(s, r.next.value)
  {
    hide Complete;
    CompleteKeepsTls(s, c, Bad);
    CompleteKeepsTls(s.(mailbox := false), c, if w.closeOk then Ok else No);
  }

  lemma StepKeepsTls(s: SessionState, i: Input)
    ensures var t := Do(s, i.line, i.world).next; t.Some? ==> KeepsTls(s, t.value)
  {
    hide NextState, States, DoLogin, DoAuthenticate, DoSelect, DoClose;
    if i.line.Known? {
      var c, ok := i.line.command, i.line.argsOk;
      CompleteKeepsTls(s, c, Bad);
      LoginKeepsTls(s, i.world, ok);
      SelectKeepsTls(s, c, i.world, ok);
      CloseKeepsTls(s, c, i.world, ok);
    }
  }

  /** Where TLS is required, no run of any client brings a session that is not
      encrypted past the not authenticated state, unless it was authenticated before
      it began. */
  lemma {:induction false} NoCleartextLogin(s: SessionState, inputs: seq<Input>)
    requires Safe(s) && Guarded(s) && Run(s, inputs).Some?
    ensures Guarded(Run(s, inputs).value)
    decreases |inputs|
  {
    hide Do, Safe, Guarded;
    if inputs != [] {
      StepIsSafe(s, inputs[0].line, inputs[0].world);
      StepIsGuarded(s, inputs[0]);
      NoCleartextLogin(Do(s, inputs[0].line, inputs[0].world).next.value, inputs[1..]);
    }
  }

  lemma RequiredIsGuarded(cfg: TlsConfig, loginDisabled: bool, preauth: Option<bool>, preauthOnly: bool,
                          inputs: seq<Input>)
    requires Resolve(cfg) == Required && Start(cfg, loginDisabled, preauth, preauthOnly).Some?
    ensures Guarded(Start(cfg, loginDisabled, preauth, preauthOnly).value) <==> preauth != Some(true)
    ensures var s := Start(cfg, loginDisabled, preauth, preauthOnly).value;
      preauth != Some(true) && Run(s, inputs).Some? && Run(s, inputs).value.state != NONAUTH
      ==> Run(s, inputs).value.encrypted
  {
    var s := Start(cfg, loginDisabled, preauth, preauthOnly).value;
    StartIsSafe(cfg, loginDisabled, preauth, preauthOnly);
    if preauth != Some(true) && Run(s, inputs).Some? { NoCleartextLogin(s, inputs); }
  }

  lemma OfferIsHonest(s: SessionState, w: World)
    requires Safe(s) && s.state == NONAUTH
    ensures StartTls in s.capabilities <==> Do(s, Known(STARTTLS, true), w).sent == [Tagged(Ok)]
  {
  }

  /** In every run of every server, STARTTLS is offered exactly where it is accepted. */
  lemma StartTlsIsOffered(cfg: TlsConfig, loginDisabled: bool, preauth: Option<bool>, preauthOnly: bool,
                          inputs: seq<Input>, w: World)
    requires Start(cfg, loginDisabled, preauth, preauthOnly).Some?
    ensures var t := Run(Start(cfg, loginDisabled, preauth, preauthOnly).value, inputs);
      t.Some? && t.value.state == NONAUTH ==>
        (StartTls in t.value.capabilities <==> Do(t.value, Known(STARTTLS, true), w).sent == [Tagged(Ok)])
  {
    hide Safe, Do, Start;
    var s := Start(cfg, loginDisabled, preauth, preauthOnly).value;
    StartIsSafe(cfg, loginDisabled, preauth, preauthOnly);
    RunIsSafe(s, inputs);
    var t := Run(s, inputs);
    if t.Some? && t.value.state == NONAUTH { OfferIsHonest(t.value, w); }
  }

  /** LOGIN is refused for policy exactly where one of two capabilities says so. */
  lemma LoginPolicyIsOffered(s: SessionState, w: World)
    requires Safe(s) && s.state == NONAUTH && w.userOk
    ensures Do(s, Known(LOGIN, true), w).sent == [Tagged(No)]
      <==> LoginDisabled in s.capabilities || XTlsRequired in s.capabilities
  {
  }

  // ----- the mailbox -----

  /** A mailbox that is open although none is selected. */
  predicate Leaked(s: SessionState) {
    s.mailbox && s.state != SEL
  }

  predicate Leaves(line: Line) {
    line.Known? && !line.argsOk && line.command in {SELECT, EXAMINE, CLOSE, UNSELECT}
  }

  predicate Reopens(line: Line) {
    line.Known? && line.argsOk && line.command in {SELECT, EXAMINE}
  }

  /** The selected state always has its mailbox.  The converse fails in exactly one
      way: a SELECT, EXAMINE, CLOSE or UNSELECT with the wrong number of arguments
      leaves the selected state without closing the mailbox; and it is mended by
      the next well-formed SELECT or EXAMINE. */
  lemma LeakIsExact(s: SessionState, line: Line, w: World)
    requires Safe(s) && Do(s, line, w).next.Some?
    ensures !Leaked(s) ==> (Leaked(Do(s, line, w).next.value) <==> s.state == SEL && Leaves(line))
    ensures Leaked(s) ==> (Leaked(Do(s, line, w).next.value) <==> !Reopens(line))
  {
    if line.Known? {
      FailureKeepsSafe(s, line.command, Bad);
      FailureKeepsSafe(s, line.command, No);
      if s.state !in States(line.command) {
        WrongStateChangesNothing(s, line.command, line.argsOk, w);
      } else if Plain(line.command) {
        PlainKeepsSession(s, line.command, if line.argsOk then w.reply else Bad);
      }
    }
  }

  /** CLOSE with an argument too many. */
  lemma CloseLeaks(s: SessionState, w: World)
    requires Safe(s) && s.state == SEL
    ensures var t := Do(s, Known(CLOSE, false), w).next; t.Some? && Leaked(t.value)
  {
  }
}
