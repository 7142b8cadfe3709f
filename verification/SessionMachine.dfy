/** The session as the program keeps it, in variables that the commands update,
    refining the step function. */
module SessionMachine {
  import opened Text
  import opened Session

  class Server {
    var state: nat
    var mbox: bool
    var userSetUp: bool
    var tlsMode: TlsMode
    var encrypted: bool
    var loginDisabled: bool
    var capaList: set<Capability>
    var sent: seq<Answer>
    var alive: bool

    ghost function Now(): SessionState
      reads this
    {
      SessionState(state, mbox, userSetUp, tlsMode, encrypted, loginDisabled, capaList)
    }

    /** What a step has done: the session is where the step function says, or the
        process has exited. */
    ghost predicate Did(r: Step, before: seq<Answer>)
      reads this
    {
      && alive == r.next.Some?
      && (alive ==> Now() == r.next.value)
      && sent == before + r.sent
    }

    /** `main` and `imap4d_mainloop` up to the loop. */
    constructor (cfg: TlsConfig, loginDisabled: bool, preauth: Option<bool>, preauthOnly: bool)
      ensures var s := Start(cfg, loginDisabled, preauth, preauthOnly);
        alive == s.Some? && (alive ==> Now() == s.value && Safe(Now())) && sent == []
    {
      var mode := Resolve(cfg);
      state, mbox, userSetUp := NONAUTH, false, false;
      tlsMode, encrypted, this.loginDisabled := mode, false, loginDisabled;
      capaList := if loginDisabled then {LoginDisabled} else {};
      sent, alive := [], true;
      new;
      if mode == Required {
        capaList := capaList + {XTlsRequired, StartTls};
      } else if mode == OnDemand {
        capaList := capaList + {StartTls};
      }
      if mode == Connection { TurnEncryptionOn(); }
      if preauth == Some(true) {
        userSetUp := true;
        state := AUTH;
      } else if preauth.Some? {
        alive := !preauthOnly;
      }
      if ServerCheck(cfg).CheckFailed? { alive := false; }
      StartIsSafe(cfg, loginDisabled, preauth, preauthOnly);
    }

    /** `tls_encryption_on`: nothing is left to be offered or refused for want of TLS. */
    method TurnEncryptionOn()
      modifies this`tlsMode, this`encrypted, this`loginDisabled, this`capaList
      ensures Now() == EncryptionOn(old(Now()))
      ensures encrypted && tlsMode == NoTls && !loginDisabled && capaList == {}
    {
      tlsMode, encrypted := NoTls, true;
      capaList := capaList - {StartTls};
      loginDisabled := false;
      capaList := capaList - {LoginDisabled};
      capaList := capaList - {XTlsRequired};
      forall c ensures c !in capaList { OneOfThree(c); }
    }

    /** `io_completion_response`: a failure never raises the state. */
    method Completion(c: Command, rc: Response)
      requires alive
      modifies this`state, this`sent
      ensures Did(Complete(old(Now()), c, rc), old(sent))
      ensures state == NextState(old(state), c, rc)
      ensures rc != Ok ==> state <= old(state)
    {
      hide Success, Failure;
      sent := sent + [Tagged(rc)];
      var newState := NONE;
      if rc == Ok {
        newState := Success(c);
      } else if Failure(c) <= state {
        newState := Failure(c);
      }
      if newState != NONE { state := newState; }
    }

    /** A stranger is let in exactly if policy allows it and the world vouches for
        them; nothing else moves. */
    method Login(w: World, argsOk: bool)
      requires alive
      modifies this`state, this`userSetUp, this`sent
      ensures Did(DoLogin(old(Now()), w, argsOk), old(sent))
      ensures var admitted := !loginDisabled && tlsMode != Required && argsOk && w.userOk;
        && state == (if admitted then AUTH else old(state))
        && userSetUp == (old(userSetUp) || admitted)
    {
      hide Complete, NextState;
      NextStates(state);
      if loginDisabled || tlsMode == Required { Completion(LOGIN, No); return; }
      if !argsOk { Completion(LOGIN, Bad); return; }
      if !w.userOk { Completion(LOGIN, No); return; }
      userSetUp := true;
      Completion(LOGIN, Ok);
    }

    method Authenticate(w: World, argsOk: bool)
      requires alive
      modifies this`state, this`userSetUp, this`sent
      ensures Did(DoAuthenticate(old(Now()), w, argsOk), old(sent))
      ensures var admitted := argsOk && tlsMode != Required && w.auth in {Completed, Named(true)};
        && state == (if admitted then AUTH else old(state))
        && userSetUp == (old(userSetUp) || admitted)
    {
      hide Complete, NextState;
      NextStates(state);
      if !argsOk { Completion(AUTHENTICATE, Bad); return; }
      if tlsMode == Required { Completion(AUTHENTICATE, No); return; }
      match w.auth
      case Unsupported => Completion(AUTHENTICATE, No);
      case Completed =>
        userSetUp := true;
        Completion(AUTHENTICATE, Ok);
      case Named(setupOk) =>
        if setupOk {
          userSetUp := true;
          Completion(AUTHENTICATE, Ok);
        } else {
          Completion(AUTHENTICATE, No);
        }
      case Failed => Completion(AUTHENTICATE, No);
    }

    /** `imap4d_select0`: a mailbox is selected exactly if it was opened, and the one
        selected before is closed either way; only the wrong number of arguments
        leaves it open. */
    method Select0(c: Command, w: World, argsOk: bool)
      requires alive && (c == SELECT || c == EXAMINE) && state in {AUTH, SEL}
      modifies this`state, this`mbox, this`sent
      ensures Did(DoSelect(old(Now()), c, w, argsOk), old(sent))
      ensures state == if argsOk && w.open == Opened then SEL else AUTH
      ensures mbox == if argsOk then w.open == Opened else old(mbox)
    {
      hide Complete, NextState;
      SelectStates(state, c);
      if !argsOk { Completion(c, Bad); return; }
      if mbox { mbox := false; }
      if w.open == NoName { Completion(c, No); return; }
      if w.open != NotOpened {
        mbox := true;
        state := SEL;
        if w.open == Opened {
          sent := sent + [Tagged(Ok)];
          return;
        }
      }
      mbox := false;
      Completion(c, No);
    }

    /** `imap4d_close0`: the selected state is left whatever happens, the mailbox is
        closed if the command was well formed. */
    method Close0(c: Command, w: World, argsOk: bool)
      requires alive && (c == CLOSE || c == UNSELECT) && state == SEL
      modifies this`state, this`mbox, this`sent
      ensures Did(DoClose(old(Now()), c, w, argsOk), old(sent))
      ensures state == AUTH && mbox == (old(mbox) && !argsOk)
    {
      hide Complete, NextState;
      NextStates(state);
      if !argsOk { Completion(c, Bad); return; }
      mbox := false;
      Completion(c, if w.closeOk then Ok else No);
    }

    /** After an accepted STARTTLS the session is encrypted or over; the state does not
        move. */
    method StartTlsCommand(w: World, argsOk: bool)
      requires alive
      modifies this`state, this`sent, this`alive, this`tlsMode, this`encrypted, this`loginDisabled, this`capaList
      ensures Did(DoStartTls(old(Now()), w, argsOk), old(sent))
      ensures var accepted := old(tlsMode) != NoTls && argsOk;
        && state == old(state) && alive == (!accepted || w.handshakeOk)
        && (alive ==> encrypted == (old(encrypted) || accepted))
        && (!accepted ==> tlsMode == old(tlsMode) && loginDisabled == old(loginDisabled) && capaList == old(capaList))
    {
      if tlsMode == NoTls { Completion(STARTTLS, Bad); return; }
      if !argsOk { Completion(STARTTLS, Bad); return; }
      Completion(STARTTLS, Ok);
      if w.handshakeOk { TurnEncryptionOn(); } else { alive := false; }
    }

    /** LOGOUT ends the session, with its mailbox closed. */
    method Logout(argsOk: bool)
      requires alive && state < LOGGED_OUT
      modifies this`state, this`mbox, this`sent, this`alive
      ensures Did(DoLogout(old(Now()), argsOk), old(sent))
      ensures alive == !argsOk && state == old(state) && mbox == (old(mbox) && !argsOk)
    {
      if !argsOk { Completion(LOGOUT, Bad); return; }
      if mbox { mbox := false; }
      sent := sent + [Tagged(Ok)];
      alive := false;
    }

    /** Calling the handler of a command. */
    method Dispatch(c: Command, argsOk: bool, w: World)
      requires alive && Safe(Now()) && state in States(c)
      modifies this
      ensures Did(Handle(old(Now()), c, argsOk, w), old(sent))
    {
      SafeState(Now(), c);
      hide Safe, States, NextState, Complete, DoLogin, DoAuthenticate, DoSelect, DoClose, DoStartTls, DoLogout;
      if c == LOGIN {
        Login(w, argsOk);
      } else if c == AUTHENTICATE {
        Authenticate(w, argsOk);
      } else if c == SELECT || c == EXAMINE {
        Select0(c, w, argsOk);
      } else if c == CLOSE || c == UNSELECT {
        Close0(c, w, argsOk);
      } else if c == STARTTLS {
        StartTlsCommand(w, argsOk);
      } else if c == LOGOUT {
        Logout(argsOk);
      } else {
        Completion(c, if argsOk then w.reply else Bad);
      }
    }

    /** `util_do_command`. */
    method DoCommand(line: Line, w: World)
      requires alive && Safe(Now())
      modifies this
      ensures Did(Do(old(Now()), line, w), old(sent))
      ensures alive ==> Safe(Now())
    {
      StepIsSafe(Now(), line, w);
      hide Safe, Complete, Handle, NextState;
      match line
      case Empty => sent := sent + [Untagged(Bad)];
      case TagOnly => sent := sent + [Tagged(Bad)];
      case Unknown => sent := sent + [Tagged(Bad)];
      case Known(c, argsOk) => if state in States(c) { Dispatch(c, argsOk, w); } else { Completion(c, Bad); }
    }

    /** The main loop over any input: it stays safe as long as it lives, and every
        line gets exactly one completion response. */
    method MainLoop(inputs: seq<Input>)
      requires alive && Safe(Now())
      modifies this
      ensures alive == Run(old(Now()), inputs).Some?
      ensures alive ==> Now() == Run(old(Now()), inputs).value && Safe(Now())
      ensures alive ==> |sent| == |old(sent)| + |inputs|
    {
      hide Safe, Do;
      var i := 0;
      assert inputs[0..] == inputs;
      while i < |inputs| && alive
        invariant 0 <= i <= |inputs|
        invariant alive ==> Safe(Now()) && Run(Now(), inputs[i..]) == Run(old(Now()), inputs)
        invariant !alive ==> Run(old(Now()), inputs).None?
        invariant alive ==> |sent| == |old(sent)| + i
      {
        assert inputs[i..][0] == inputs[i] && inputs[i..][1..] == inputs[i + 1..];
        StepIsSafe(Now(), inputs[i].line, inputs[i].world);
        DoCommand(inputs[i].line, inputs[i].world);
        i := i + 1;
      }
    }
  }

  lemma SafeState(s: SessionState, c: Command)
    requires Safe(s) && s.state in States(c)
    ensures s.state < LOGGED_OUT
    ensures c == SELECT || c == EXAMINE ==> s.state in {AUTH, SEL}
    ensures c == CLOSE || c == UNSELECT ==> s.state == SEL
  {
  }

  /** Where the commands that can move a session take it. */
  lemma NextStates(state: nat)
    ensures NextState(state, LOGIN, Ok) == NextState(state, AUTHENTICATE, Ok) == AUTH
    ensures forall rc :: rc != Ok ==> NextState(state, LOGIN, rc) == NextState(state, AUTHENTICATE, rc) == state
    ensures forall c, rc :: c in {SELECT, EXAMINE, CLOSE, UNSELECT} && rc != Ok && state >= AUTH ==>
      NextState(state, c, rc) == AUTH
    ensures forall c :: c in {CLOSE, UNSELECT} ==> NextState(state, c, Ok) == AUTH
  {
  }

  lemma SelectStates(state: nat, c: Command)
    requires state in {AUTH, SEL} && (c == SELECT || c == EXAMINE)
    ensures NextState(state, c, Bad) == NextState(state, c, No) == NextState(SEL, c, No) == AUTH
  {
  }

  lemma OneOfThree(c: Capability)
    ensures c in {StartTls, LoginDisabled, XTlsRequired}
  {
  }
}
