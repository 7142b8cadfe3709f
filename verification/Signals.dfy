/** Signals and critical sections: a signal never interrupts work on a mailbox, is
    never forgotten, and ends the session exactly once. */
module Signals {
  import opened Text

  /** `__critical_section`, `__got_signal` and the disposition of the signals; where
      the program is (`inside` a section, `closing` the session after a jump); and
      the jumps taken. */
  datatype State = State(
    critical: nat,
    got: Option<nat>,
    ignored: bool,
    inside: bool,
    closing: bool,
    jumps: seq<nat>)

  const START := State(0, None, false, false, false, [])

  datatype Event = Enter | Leave | Signal(signo: nat)

  /** `longjmp` to the place where the session is closed. */
  function Jump(s: State, signo: nat): State {
    s.(jumps := s.jumps + [signo], closing := true, inside := false)
  }

  function Step(s: State, e: Event): State {
    match e
    case Enter => s.(critical := if s.got.Some? then 2 else 1, inside := true)
    case Leave =>
      if s.got.Some? && s.critical != 2 then Jump(s, s.got.value) else s.(critical := 0, inside := false)
    case Signal(n) =>
      if s.ignored then s
      else if s.critical != 0 then s.(ignored := true, got := Some(n))
      else Jump(s.(ignored := true), n)
  }

  function Run(s: State, es: seq<Event>): State
    decreases |es|
  {
    if es == [] then s else Run(Step(s, es[0]), es[1..])
  }

  /** Sections do not nest. */
  predicate Possible(s: State, e: Event) {
    (e == Enter ==> !s.inside) && (e == Leave ==> s.inside)
  }

  predicate AllPossible(s: State, es: seq<Event>)
    decreases |es|
  {
    es != [] ==> Possible(s, es[0]) && AllPossible(Step(s, es[0]), es[1..])
  }

  predicate Sound(s: State) {
    && |s.jumps| <= 1
    && (s.closing <==> s.jumps != [])
    && (s.ignored <==> s.got.Some? || s.closing)
    && (!s.closing ==> s.critical == (if s.inside then 1 else 0) && (s.got.Some? ==> s.inside))
    && (s.closing && s.got.None? ==> s.critical == (if s.inside then 1 else 0))
    && (s.closing && s.got.Some? ==> s.jumps[0] == s.got.value && (s.inside ==> s.critical == 2))
  }

  lemma StepIsSound(s: State, e: Event)
    requires Sound(s) && Possible(s, e)
    ensures Sound(Step(s, e))
  {
  }

  /** No jump leads out of the middle of a section: it is taken where a signal finds
      the program outside, or where a section is left. */
  lemma SectionsAreNotInterrupted(s: State, e: Event)
    requires Sound(s) && Possible(s, e) && Step(s, e).jumps != s.jumps
    ensures (e.Signal? && !s.inside) || e == Leave
    ensures !s.closing
  {
  }

  function FirstSignal(es: seq<Event>): Option<nat>
    decreases |es|
  {
    if es == [] then None else if es[0].Signal? then Some(es[0].signo) else FirstSignal(es[1..])
  }

  /** The signal that has arrived, jumped for or put off. */
  function Pending(s: State): Option<nat> {
    if s.jumps != [] then Some(s.jumps[0]) else s.got
  }

  lemma StepKeepsPending(s: State, e: Event)
    requires Sound(s) && Possible(s, e)
    ensures Pending(s).Some? ==> Pending(Step(s, e)) == Pending(s)
    ensures Pending(s).None? ==> Pending(Step(s, e)) == (if e.Signal? then Some(e.signo) else None)
  {
  }

  /** In every run: the first signal, and only that, ends the session; if it came
      during a section, then as soon as the section is left; and closing the session
      is not cut short again. */
  lemma {:induction false} SignalsAreHonoured(s: State, es: seq<Event>)
    requires Sound(s) && AllPossible(s, es)
    ensures var t := Run(s, es);
      && Sound(t)
      && Pending(t) == (if Pending(s).Some? then Pending(s) else FirstSignal(es))
      && (!t.inside && Pending(t).Some? ==> t.jumps == [Pending(t).value])
    decreases |es|
  {
    if es != [] {
      StepIsSound(s, es[0]);
      StepKeepsPending(s, es[0]);
      SignalsAreHonoured(Step(s, es[0]), es[1..]);
    }
  }

  /** The two functions and the handler, as the program has them. */
  class Guard {
    var critical: nat
    var got: Option<nat>
    var ignored: bool
    ghost var inside: bool
    ghost var closing: bool
    ghost var jumps: seq<nat>

    ghost function Now(): State
      reads this
    {
      State(critical, got, ignored, inside, closing, jumps)
    }

    constructor ()
      ensures Now() == START && Sound(Now())
    {
      critical, got, ignored, inside, closing, jumps := 0, None, false, false, false, [];
    }

    method EnterCritical()
      requires Sound(Now()) && !inside
      modifies this
      ensures Now() == Step(old(Now()), Enter) && Sound(Now())
    {
      StepIsSound(Now(), Enter);
      critical := 1;
      if got.Some? { critical := critical + 1; }
      inside := true;
    }

    /** `jump` carries the argument of `longjmp`. */
    method LeaveCritical() returns (jump: Option<nat>)
      requires Sound(Now()) && inside
      modifies this
      ensures Now() == Step(old(Now()), Leave) && Sound(Now())
      ensures jump.Some? <==> jumps != old(jumps)
      ensures jump.Some? ==> jump == old(got)
    {
      StepIsSound(Now(), Leave);
      inside := false;
      if got.Some? && critical != 2 {
        jumps, closing := jumps + [got.value], true;
        return got;
      }
      critical := 0;
      jump := None;
    }

    method ChildSignal(signo: nat) returns (jump: Option<nat>)
      requires Sound(Now())
      modifies this
      ensures Now() == Step(old(Now()), Signal(signo)) && Sound(Now())
      ensures jump.Some? <==> jumps != old(jumps)
      ensures jump.Some? ==> jump == Some(signo) && !old(inside)
    {
      StepIsSound(Now(), Signal(signo));
      jump := None;
      if ignored { return; }
      ignored := true;
      if critical != 0 {
        got := Some(signo);
      } else {
        jumps, closing, inside := jumps + [signo], true, false;
        jump := Some(signo);
      }
    }
  }
}
