/** What a client believes of the selected mailbox, and the notices that keep it true.
    The server's table of flags stands for what the client has been told. */
module ClientView {
  import opened Text
  import opened Mailbox

  /** What a client learns, in order: the untagged responses it is sent, and what it
      works out for itself from a silent STORE of its own. */
  datatype Notice =
    | FetchFlags(msgno: nat, flags: Flags)
    | Expunged(msgno: nat)
    | Exists(n: nat)
    | Recent(n: nat)
    | Alert
    | OwnStore(msgno: nat, how: How, flags: Flags)

  /** What a client knows of each message: nothing yet, or its flags. */
  type View = seq<Option<Flags>>

  function AllFlags(box: seq<Message>): (r: seq<Flags>)
    ensures |r| == |box| && forall i :: 0 <= i < |box| ==> r[i] == box[i].flags
  {
    seq(|box|, i requires 0 <= i < |box| => box[i].flags)
  }

  function Unknown(n: nat): (v: View)
    ensures |v| == n && forall i :: 0 <= i < n ==> v[i].None?
  {
    seq(n, _ => None)
  }

  /** How a client takes a notice. */
  function Take(view: View, n: Notice): View {
    match n
    case FetchFlags(k, f) => if 1 <= k <= |view| then view[k - 1 := Some(f)] else view
    case Expunged(k) => if 1 <= k <= |view| then Drop(view, k) else view
    case Exists(k) => if k <= |view| then view[..k] else view + Unknown(k - |view|)
    case Recent(_) => view
    case Alert => view
    case OwnStore(k, how, t) =>
      if 1 <= k <= |view| && view[k - 1].Some? then view[k - 1 := Some(Meant(how, t, view[k - 1].value))] else view
  }

  function TakeAll(view: View, ns: seq<Notice>): View {
    if ns == [] then view else Take(TakeAll(view, ns[..|ns| - 1]), ns[|ns| - 1])
  }

  lemma TakeSnoc(view: View, ns: seq<Notice>, n: Notice)
    ensures TakeAll(view, ns + [n]) == Take(TakeAll(view, ns), n)
  {
    assert (ns + [n])[..|ns|] == ns;
  }

  lemma {:induction false} TakeConcat(view: View, a: seq<Notice>, b: seq<Notice>)
    ensures TakeAll(view, a + b) == TakeAll(TakeAll(view, a), b)
    decreases |b|
  {
    hide Take;
    if b == [] {
      EmptyConcat(a);
    } else {
      var front, last := b[..|b| - 1], b[|b| - 1];
      assert b == front + [last];
      ConcatAssoc(a, front, [last]);
      TakeConcat(view, a, front);
      TakeSnoc(view, a + front, last);
    }
  }

  /** Nothing the client believes is wrong. */
  predicate True(view: View, flags: seq<Flags>) {
    |view| == |flags| && Agrees(view, flags)
  }

  predicate Agrees(view: View, flags: seq<Flags>) {
    forall i :: 0 <= i < |view| && i < |flags| ==> view[i].None? || view[i].value == Visible(flags[i])
  }

  // ----- changes -----

  /** The notices for messages that were known before, up to number `n`. */
  function Changes(table: seq<Flags>, flags: seq<Flags>, n: nat): seq<Notice>
    requires n <= |table| && n <= |flags|
  {
    if n == 0 then []
    else
      Changes(table, flags, n - 1)
      + (if flags[n - 1] != table[n - 1] then [FetchFlags(n, Visible(flags[n - 1]))] else [])
  }

  lemma NoChanges(table: seq<Flags>, flags: seq<Flags>)
    ensures Changes(table, flags, 0) == []
  {
  }

  lemma ChangesStep(was: seq<Notice>, table: seq<Flags>, flags: seq<Flags>, n: nat)
    requires n < |table| && n < |flags|
    ensures flags[n] == table[n] ==> Changes(table, flags, n + 1) == Changes(table, flags, n)
    ensures flags[n] != table[n] ==>
      was + Changes(table, flags, n + 1) == was + Changes(table, flags, n) + [FetchFlags(n + 1, Visible(flags[n]))]
  {
    EmptyConcat(Changes(table, flags, n));
    ConcatAssoc(was, Changes(table, flags, n), [FetchFlags(n + 1, Visible(flags[n]))]);
  }

  /** Only changes are reported: each of them, and nothing twice. */
  lemma {:induction false} ChangesAreExact(table: seq<Flags>, flags: seq<Flags>, n: nat)
    requires n <= |table| && n <= |flags|
    ensures forall k: nat, f: Flags ::
      (FetchFlags(k, f) in Changes(table, flags, n)
       <==> 1 <= k <= n && f == Visible(flags[k - 1]) && flags[k - 1] != table[k - 1])
    ensures |Changes(table, flags, n)| <= n
    decreases n
  {
    if n > 0 { ChangesAreExact(table, flags, n - 1); }
  }

  /** Up to number `n` the client believes nothing false of the new flags; beyond it
      believes what it did before. */
  predicate ToldUpTo(view: View, before: View, flags: seq<Flags>, n: nat) {
    && |view| == |before| && n <= |view| && n <= |flags|
    && (forall i :: 0 <= i < n ==> view[i].None? || view[i].value == Visible(flags[i]))
    && (forall i :: n <= i < |view| ==> view[i] == before[i])
  }

  lemma ToldFlags(view: View, before: View, table: seq<Flags>, flags: seq<Flags>, n: nat)
    requires True(before, table) && n < |table| && n < |flags| && ToldUpTo(view, before, flags, n)
    ensures flags[n] == table[n] ==> ToldUpTo(view, before, flags, n + 1)
    ensures ToldUpTo(Take(view, FetchFlags(n + 1, Visible(flags[n]))), before, flags, n + 1)
  {
    var v := Take(view, FetchFlags(n + 1, Visible(flags[n])));
    assert v == view[n := Some(Visible(flags[n]))];
    assert view[n] == before[n];
  }

  lemma {:induction false} ChangesTaken(view: View, table: seq<Flags>, flags: seq<Flags>, n: nat)
    requires True(view, table) && n <= |table| && n <= |flags|
    ensures ToldUpTo(TakeAll(view, Changes(table, flags, n)), view, flags, n)
    decreases n
  {
    hide Take, True, ToldUpTo;
    if n == 0 {
      ToldNothing(view, table, flags);
    } else {
      ChangesTaken(view, table, flags, n - 1);
      var ns := Changes(table, flags, n - 1);
      ToldFlags(TakeAll(view, ns), view, table, flags, n - 1);
      if flags[n - 1] != table[n - 1] {
        TakeSnoc(view, ns, FetchFlags(n, Visible(flags[n - 1])));
      } else {
        EmptyConcat(ns);
      }
    }
  }

  lemma ToldNothing(view: View, table: seq<Flags>, flags: seq<Flags>)
    requires True(view, table)
    ensures ToldUpTo(view, view, flags, 0)
  {
  }

  function Least(a: nat, b: nat): nat {
    if a <= b then a else b
  }

  /** The two counts that end every notification. */
  function Counts(n: nat, recent: nat): seq<Notice> {
    [Exists(n), Recent(recent)]
  }

  /** Being told how many messages there are makes a client's beliefs true exactly if
      none of those it goes on holding is wrong. */
  lemma CountsTaken(view: View, flags: seq<Flags>, recent: nat)
    ensures True(TakeAll(view, Counts(|flags|, recent)), flags) <==> Agrees(view, flags)
  {
    var v := Take(view, Exists(|flags|));
    assert Counts(|flags|, recent) == [Exists(|flags|)] + [Recent(recent)];
    TakeSnoc(view, [Exists(|flags|)], Recent(recent));
    TakeSnoc(view, [], Exists(|flags|));
    assert [] + [Exists(|flags|)] == [Exists(|flags|)];
    assert TakeAll(view, Counts(|flags|, recent)) == v && |v| == |flags|;
    assert forall i :: 0 <= i < |view| && i < |flags| ==> v[i] == view[i];
    assert forall i :: |view| <= i < |v| ==> v[i].None?;
  }

  lemma UpToLeast(view: View, before: View, table: seq<Flags>, flags: seq<Flags>)
    requires True(before, table) && ToldUpTo(view, before, flags, Least(|table|, |flags|))
    ensures Agrees(view, flags)
  {
  }

  /** After the notices, whether the mailbox has grown or shrunk, what the client
      believes is true of the mailbox. */
  lemma NoticesInform(view: View, table: seq<Flags>, flags: seq<Flags>, recent: nat)
    requires True(view, table)
    ensures True(TakeAll(view, Changes(table, flags, Least(|table|, |flags|)) + Counts(|flags|, recent)), flags)
  {
    var n := Least(|table|, |flags|);
    assert n <= |table| && n <= |flags|;
    hide *;
    var cs := Changes(table, flags, n);
    ChangesTaken(view, table, flags, n);
    UpToLeast(TakeAll(view, cs), view, table, flags);
    TakeConcat(view, cs, Counts(|flags|, recent));
    CountsTaken(TakeAll(view, cs), flags, recent);
  }

  // ----- EXPUNGE -----

  function Announce(ns: seq<nat>): (r: seq<Notice>)
    ensures |r| == |ns| && forall i :: 0 <= i < |ns| ==> r[i] == Expunged(ns[i])
  {
    seq(|ns|, i requires 0 <= i < |ns| => Expunged(ns[i]))
  }

  lemma AnnounceSnoc(ns: seq<nat>, n: nat)
    ensures Announce(ns + [n]) == Announce(ns) + [Expunged(n)]
  {
  }

  /** What a client knows of the messages that stay. */
  function KeptOf(view: View, box: seq<Message>): View {
    if box == [] then []
    else
      KeptOf(view, box[..|box| - 1])
      + (if Deleted in box[|box| - 1].flags || |box| > |view| then [] else [view[|box| - 1]])
  }

  lemma {:induction false} KeptOfSize(view: View, box: seq<Message>)
    ensures |KeptOf(view, box)| <= |Kept(box)|
    ensures |box| <= |view| ==> |KeptOf(view, box)| == |Kept(box)|
  {
    if box != [] { KeptOfSize(view, box[..|box| - 1]); }
  }

  function Beyond(view: View, n: nat): View {
    if n <= |view| then view[n..] else []
  }

  /** Following the reports, a client drops what it knew of the messages deleted. */
  lemma {:induction false} ReportsTaken(view: View, box: seq<Message>)
    ensures TakeAll(view, Announce(Reported(box))) == KeptOf(view, box) + Beyond(view, |box|)
    decreases |box|
  {
    hide Take;
    if box == [] {
      EmptyConcat(view);
    } else {
      var front, last := box[..|box| - 1], box[|box| - 1];
      var ns, n := Reported(front), |Kept(front)| + 1;
      ReportsTaken(view, front);
      KeptOfSize(view, front);
      var v := KeptOf(view, front) + Beyond(view, |front|);
      if Deleted in last.flags {
        AnnounceSnoc(ns, n);
        TakeSnoc(view, Announce(ns), Expunged(n));
        DropLast(KeptOf(view, front), view, |front|, n);
        EmptyConcat(KeptOf(view, front));
      } else {
        EmptyConcat(ns);
        KeepLast(KeptOf(view, front), view, |front|);
      }
    }
  }

  lemma DropLast(known: View, view: View, k: nat, n: nat)
    requires |known| < n && (k <= |view| ==> |known| + 1 == n)
    ensures Take(known + Beyond(view, k), Expunged(n)) == known + Beyond(view, k + 1)
  {
    var v := known + Beyond(view, k);
    if k < |view| { assert Drop(v, n) == known + view[k + 1..]; }
  }

  lemma KeepLast(known: View, view: View, k: nat)
    ensures known + Beyond(view, k)
      == known + (if k + 1 > |view| then [] else [view[k]]) + Beyond(view, k + 1)
  {
    if k < |view| {
      assert Beyond(view, k) == [view[k]] + view[k + 1..];
      ConcatAssoc(known, [view[k]], view[k + 1..]);
    } else {
      EmptyConcat(known);
    }
  }

  /** What the client believes of the messages that will stay. */
  predicate SurvivorsAgree(view: View, box: seq<Message>) {
    forall i :: 0 <= i < |view| && i < |box| && Deleted !in box[i].flags ==>
      view[i].None? || view[i].value == Visible(box[i].flags)
  }

  lemma {:induction false} KeptAgrees(view: View, box: seq<Message>, more: View)
    requires |box| > |view| ==> more == []
    ensures Agrees(KeptOf(view, box) + more, AllFlags(Kept(box))) <==> SurvivorsAgree(view, box)
    decreases |box|
  {
    hide Visible, Agrees, SurvivorsAgree;
    KeptOfSize(view, box);
    AgreesFirst(KeptOf(view, box), more, AllFlags(Kept(box)));
    if box == [] {
      NothingAgrees(view, []);
    } else {
      var front, last := box[..|box| - 1], box[|box| - 1];
      KeptAgrees(view, front, []);
      KeptOfSize(view, front);
      EmptyConcat(KeptOf(view, front));
      SurvivorsLast(view, box);
      if Deleted in last.flags {
        EmptyConcat(Kept(front));
      } else {
        assert AllFlags(Kept(box)) == AllFlags(Kept(front)) + [last.flags];
        AgreesLast(KeptOf(view, front), AllFlags(Kept(front)), if |box| > |view| then None else Some(view[|box| - 1]),
                   last.flags);
      }
    }
  }

  lemma AgreesFirst(known: View, more: View, flags: seq<Flags>)
    requires |known| <= |flags| && (|known| < |flags| ==> more == [])
    ensures Agrees(known + more, flags) <==> Agrees(known, flags)
  {
    assert forall i :: 0 <= i < |known| ==> (known + more)[i] == known[i];
  }

  lemma NothingAgrees(view: View, box: seq<Message>)
    requires box == []
    ensures SurvivorsAgree(view, box) && Agrees([], AllFlags(box)) && Kept(box) == []
  {
  }

  lemma SurvivorsLast(view: View, box: seq<Message>)
    requires box != []
    ensures var last := box[|box| - 1];
      SurvivorsAgree(view, box) <==>
        && SurvivorsAgree(view, box[..|box| - 1])
        && (Deleted in last.flags || |box| > |view| || view[|box| - 1].None?
            || view[|box| - 1].value == Visible(last.flags))
  {
    var front, k := box[..|box| - 1], |box| - 1;
    assert forall i :: 0 <= i < k ==> front[i] == box[i];
  }

  lemma AgreesLast(known: View, flags: seq<Flags>, next: Option<Option<Flags>>, f: Flags)
    requires |known| <= |flags| && (next.Some? ==> |known| == |flags|)
    ensures Agrees(known + (if next.None? then [] else [next.value]), flags + [f]) <==>
      Agrees(known, flags) && (next.None? || next.value.None? || next.value.value == Visible(f))
  {
    var v, g := known + (if next.None? then [] else [next.value]), flags + [f];
    assert forall i :: 0 <= i < |known| ==> v[i] == known[i] && g[i] == flags[i];
    if next.Some? { assert v[|known|] == next.value && g[|known|] == f; }
  }

  // ----- steps -----

  /** The selected mailbox, the server's table and the number of entries there is memory
      for, and what the client believes. */
  datatype State = State(box: seq<Message>, table: seq<Flags>, valid: bool, view: View, capacity: nat)

  datatype Event =
    | Outside(box: seq<Message>)
    | Syncs(updated: bool, corrupt: bool, recent: nat)
    | Stores(msgnos: seq<nat>, how: How, flags: Flags, ack: bool)
    | Expunges(recent: nat)

  /** The table is what the client has been told. */
  predicate Told(s: State) {
    True(s.view, s.table)
  }

  /** STORE names messages that are there when it is parsed; they need not have been
      there at the last sync. */
  predicate Possible(s: State, e: Event) {
    e.Stores? ==> Numbers(e.msgnos, |s.box|) && e.flags <= STORABLE
  }

  /** `imap4d_sync_flags` writes outside the table: some message named has a number for
      which there is no memory.  Without a table nothing is written. */
  predicate Overflows(s: State, e: Event) {
    e.Stores? && s.capacity > 0 && !Numbers(e.msgnos, s.capacity)
  }

  predicate Numbers(msgnos: seq<nat>, n: nat) {
    forall i :: 0 <= i < |msgnos| ==> 1 <= msgnos[i] <= n
  }

  function Most(a: nat, b: nat): nat {
    if a >= b then a else b
  }

  /** What `imap4d_sync` sends. */
  function SyncSays(s: State, updated: bool, corrupt: bool, recent: nat): seq<Notice> {
    var flags := AllFlags(s.box);
    var counts := Counts(|s.box|, recent);
    if s.valid && updated && |s.box| == |s.table| then []
    else if !s.valid || (!updated && corrupt) then (if corrupt then [Alert] else []) + counts
    else Changes(s.table, flags, Least(|s.table|, |s.box|)) + counts
  }

  function AfterSync(s: State, updated: bool, corrupt: bool, recent: nat): State {
    var quiet := s.valid && updated && |s.box| == |s.table|;
    State(s.box, if quiet then s.table else AllFlags(s.box), true,
          TakeAll(s.view, SyncSays(s, updated, corrupt, recent)),
          if quiet then s.capacity else Most(s.capacity, |s.box|))
  }

  /** A message and its entries after STORE. */
  function StoredMessage(m: Message, how: How, t: Flags): Message {
    m.(flags := Stored(how, t, m.flags))
  }

  function StoredBox(box: seq<Message>, msgnos: seq<nat>, how: How, t: Flags): (r: seq<Message>)
    ensures |r| == |box|
    ensures forall i :: 0 <= i < |box| ==> r[i] == if i + 1 in msgnos then StoredMessage(box[i], how, t) else box[i]
  {
    seq(|box|, i requires 0 <= i < |box| => if i + 1 in msgnos then StoredMessage(box[i], how, t) else box[i])
  }

  /** Only messages that have an entry get a new one. */
  function StoredTable(box: seq<Message>, table: seq<Flags>, msgnos: seq<nat>, how: How, t: Flags): (r: seq<Flags>)
    ensures |r| == |table|
    ensures forall i :: 0 <= i < |table| ==>
      r[i] == if i < |box| && i + 1 in msgnos then Stored(how, t, box[i].flags) else table[i]
  {
    seq(|table|, i requires 0 <= i < |table| =>
      if i < |box| && i + 1 in msgnos then Stored(how, t, box[i].flags) else table[i])
  }

  /** A client that is told the flags, or works them out from those it knew. */
  function StoredKnown(known: Option<Flags>, f: Flags, how: How, t: Flags, ack: bool): Option<Flags> {
    if ack then Some(Visible(Stored(how, t, f)))
    else if known.Some? then Some(Meant(how, t, known.value))
    else None
  }

  function StoredView(view: View, box: seq<Message>, msgnos: seq<nat>, how: How, t: Flags, ack: bool): (r: View)
    ensures |r| == |view|
    ensures forall i :: 0 <= i < |view| ==>
      r[i] == if i < |box| && i + 1 in msgnos then StoredKnown(view[i], box[i].flags, how, t, ack) else view[i]
  {
    seq(|view|, i requires 0 <= i < |view| =>
      if i < |box| && i + 1 in msgnos then StoredKnown(view[i], box[i].flags, how, t, ack) else view[i])
  }

  function AfterStore(s: State, msgnos: seq<nat>, how: How, t: Flags, ack: bool): State {
    State(StoredBox(s.box, msgnos, how, t), StoredTable(s.box, s.table, msgnos, how, t), s.valid,
          StoredView(s.view, s.box, msgnos, how, t, ack), s.capacity)
  }

  /** What EXPUNGE sends: the reports, and the counts of the sync that follows. */
  function ExpungeSays(box: seq<Message>, recent: nat): seq<Notice> {
    Announce(Reported(box)) + Counts(|Kept(box)|, recent)
  }

  function AfterExpunge(s: State, recent: nat): State {
    State(Kept(s.box), AllFlags(Kept(s.box)), true, TakeAll(s.view, ExpungeSays(s.box, recent)),
          Most(s.capacity, |Kept(s.box)|))
  }

  /** A step that writes nothing outside the table. */
  function After(s: State, e: Event): State
    requires Possible(s, e) && !Overflows(s, e)
  {
    match e
    case Outside(box) => s.(box := box)
    case Syncs(updated, corrupt, recent) => AfterSync(s, updated, corrupt, recent)
    case Stores(msgnos, how, t, ack) => AfterStore(s, msgnos, how, t, ack)
    case Expunges(recent) => AfterExpunge(s, recent)
  }

  // ----- what is lost -----

  /** The client knows flags of message `i` that have changed since. */
  predicate Stale(s: State, i: nat) {
    && i < |s.view| && i < |s.table| && i < |s.box|
    && s.view[i].Some? && Visible(s.table[i]) != Visible(s.box[i].flags)
  }

  /** The steps after which the client believes something that is wrong: the table is
      read anew over a change that has not been reported, by a sync of a mailbox that
      others have cut or by EXPUNGE; or a silent STORE makes the client work out flags
      from others than those that are there. */
  ghost predicate Loses(s: State, e: Event) {
    match e
    case Outside(_) => false
    case Syncs(updated, corrupt, _) => (!s.valid || (!updated && corrupt)) && exists i: nat :: Stale(s, i)
    case Stores(msgnos, how, t, ack) =>
      !ack && exists i: nat ::
        Stale(s, i) && i + 1 in msgnos && Meant(how, t, Visible(s.table[i])) != Meant(how, t, Visible(s.box[i].flags))
    case Expunges(_) => exists i: nat :: Stale(s, i) && Deleted !in s.box[i].flags
  }

  lemma StaleView(s: State)
    requires Told(s)
    ensures Agrees(s.view, AllFlags(s.box)) <==> !exists i: nat :: Stale(s, i)
    ensures SurvivorsAgree(s.view, s.box) <==> !exists i: nat :: Stale(s, i) && Deleted !in s.box[i].flags
  {
    forall i: nat | i < |s.view| && i < |s.box|
      ensures (s.view[i].None? || s.view[i].value == Visible(s.box[i].flags)) <==> !Stale(s, i)
    {
    }
    if !Agrees(s.view, AllFlags(s.box)) {
      var i: nat :| i < |s.view| && i < |s.box| && !(s.view[i].None? || s.view[i].value == Visible(s.box[i].flags));
      assert Stale(s, i);
    }
    if !SurvivorsAgree(s.view, s.box) {
      var i: nat :| i < |s.view| && i < |s.box| && Deleted !in s.box[i].flags
        && !(s.view[i].None? || s.view[i].value == Visible(s.box[i].flags));
      assert Stale(s, i) && Deleted !in s.box[i].flags;
    }
  }

  lemma AlertTaken(view: View, counts: seq<Notice>)
    ensures TakeAll(view, [Alert] + counts) == TakeAll(view, counts)
  {
    TakeConcat(view, [Alert], counts);
    TakeSnoc(view, [], Alert);
    assert [] + [Alert] == [Alert];
  }

  lemma SyncInforms(s: State, updated: bool, corrupt: bool, recent: nat)
    requires Told(s)
    ensures Told(AfterSync(s, updated, corrupt, recent)) <==> !Loses(s, Syncs(updated, corrupt, recent))
  {
    hide Stale, TakeAll, Changes, Counts, Agrees, SurvivorsAgree;
    var flags := AllFlags(s.box);
    if s.valid && updated && |s.box| == |s.table| {
      NothingTaken(s.view);
    } else if !s.valid || (!updated && corrupt) {
      CountsTaken(s.view, flags, recent);
      AlertTaken(s.view, Counts(|s.box|, recent));
      EmptyConcat(Counts(|s.box|, recent));
      StaleView(s);
    } else {
      NoticesInform(s.view, s.table, flags, recent);
    }
  }

  lemma NothingTaken(view: View)
    ensures TakeAll(view, []) == view
  {
  }

  lemma ExpungeInforms(s: State, recent: nat)
    requires Told(s)
    ensures Told(AfterExpunge(s, recent)) <==> !Loses(s, Expunges(recent))
  {
    hide Stale, TakeAll, Counts, Agrees, SurvivorsAgree, KeptOf, Kept, Reported, Announce, Beyond;
    var left := AllFlags(Kept(s.box));
    var v := TakeAll(s.view, Announce(Reported(s.box)));
    TakeConcat(s.view, Announce(Reported(s.box)), Counts(|Kept(s.box)|, recent));
    CountsTaken(v, left, recent);
    ReportsTaken(s.view, s.box);
    NothingBeyond(s.view, |s.box|);
    KeptAgrees(s.view, s.box, Beyond(s.view, |s.box|));
    StaleView(s);
  }

  lemma NothingBeyond(view: View, n: nat)
    ensures n > |view| ==> Beyond(view, n) == []
  {
  }

  lemma StoredEntry(s: State, i: nat, how: How, t: Flags, ack: bool)
    requires Told(s) && i < |s.table| && i < |s.box| && t <= STORABLE
    ensures var k := StoredKnown(s.view[i], s.box[i].flags, how, t, ack);
      (k.None? || k.value == Visible(Stored(how, t, s.box[i].flags)))
      <==> ack || s.view[i].None? || Meant(how, t, Visible(s.table[i])) == Meant(how, t, Visible(s.box[i].flags))
  {
    hide Stored, Visible, Meant;
    StoreIsSeen(how, t, s.box[i].flags);
  }

  lemma StoreInforms(s: State, msgnos: seq<nat>, how: How, t: Flags, ack: bool)
    requires Told(s) && Possible(s, Stores(msgnos, how, t, ack))
    ensures Told(AfterStore(s, msgnos, how, t, ack)) <==> !Loses(s, Stores(msgnos, how, t, ack))
  {
    hide StoredKnown, Stored, Visible, Meant;
    var r := AfterStore(s, msgnos, how, t, ack);
    forall i: nat | i < |s.table|
      ensures (r.view[i].None? || r.view[i].value == Visible(r.table[i])) <==>
        !(i < |s.box| && i + 1 in msgnos && !ack && Stale(s, i)
          && Meant(how, t, Visible(s.table[i])) != Meant(how, t, Visible(s.box[i].flags)))
    {
      if i < |s.box| { StoredEntry(s, i, how, t, ack); }
    }
    if !Told(r) {
      var i: nat :| i < |r.view| && i < |r.table| && !(r.view[i].None? || r.view[i].value == Visible(r.table[i]));
      assert Stale(s, i);
    }
  }

  /** One step: what the client believes stays true of the table exactly if nothing is
      lost. */
  lemma StepInforms(s: State, e: Event)
    requires Told(s) && Possible(s, e) && !Overflows(s, e)
    ensures Told(After(s, e)) <==> !Loses(s, e)
  {
    hide Loses, Told, AfterSync, AfterStore, AfterExpunge;
    match e
    case Outside(box) => ToldOutside(s, box);
    case Syncs(updated, corrupt, recent) => SyncInforms(s, updated, corrupt, recent);
    case Stores(msgnos, how, t, ack) => StoreInforms(s, msgnos, how, t, ack);
    case Expunges(recent) => ExpungeInforms(s, recent);
  }

  lemma ToldOutside(s: State, box: seq<Message>)
    requires Told(s)
    ensures Told(s.(box := box)) && !Loses(s, Outside(box))
  {
  }

  // ----- writes outside the table -----

  /** There is memory for every entry. */
  predicate Held(s: State) {
    |s.table| <= s.capacity
  }

  lemma StepHeld(s: State, e: Event)
    requires Possible(s, e) && !Overflows(s, e) && Held(s)
    ensures Held(After(s, e)) && After(s, e).capacity >= s.capacity
  {
  }

  /** Between a change from outside and the next STORE the mailbox is looked at; `looked`
      says that nothing has changed since it was. */
  predicate LooksFirst(es: seq<Event>, looked: bool)
    decreases |es|
  {
    es != [] ==> (es[0].Stores? ==> looked) && LooksFirst(es[1..], !es[0].Outside?)
  }

  /** Of all steps that are possible none writes outside the table. */
  predicate StaysInside(s: State, es: seq<Event>)
    decreases |es|
  {
    es != [] && Possible(s, es[0]) ==> !Overflows(s, es[0]) && StaysInside(After(s, es[0]), es[1..])
  }

  lemma StepHasRoom(s: State, e: Event)
    requires Possible(s, e) && !Overflows(s, e) && Held(s) && !e.Outside?
    requires e.Stores? ==> |s.box| <= s.capacity
    ensures |After(s, e).box| <= After(s, e).capacity
  {
  }

  /** In every run that looks at the mailbox first, every write is inside the table. */
  lemma {:induction false} LookingStaysInside(s: State, es: seq<Event>, looked: bool)
    requires Held(s) && (looked ==> |s.box| <= s.capacity) && LooksFirst(es, looked)
    ensures StaysInside(s, es)
    decreases |es|
  {
    hide After, Held;
    if es != [] && Possible(s, es[0]) {
      var e := es[0];
      assert !Overflows(s, e);
      StepHeld(s, e);
      if !e.Outside? { StepHasRoom(s, e); }
      LookingStaysInside(After(s, e), es[1..], !e.Outside?);
    }
  }

  /** One message, a sync, a second message that is delivered, and a STORE on all. */
  lemma DeliveryOverflows(m: Message, m': Message, how: How, t: Flags, ack: bool, recent: nat)
    requires t <= STORABLE
    ensures var s := AfterSync(State([m], [], false, [], 0), false, false, recent);
      var grown := s.(box := [m, m']);
      && Told(s) && Held(s) && !StaysInside(s, [Outside([m, m'])] + [Stores([1, 2], how, t, ack)])
      && Possible(grown, Stores([1, 2], how, t, ack)) && Overflows(grown, Stores([1, 2], how, t, ack))
  {
    SyncInforms(State([m], [], false, [], 0), false, false, recent);
    assert [1, 2][1] == 2;
    ConsDrop(Outside([m, m']), [Stores([1, 2], how, t, ack)]);
  }

  // ----- runs -----

  /** A run in which every step is possible, none writes outside the table and none loses
      a change. */
  ghost predicate Lossless(s: State, es: seq<Event>)
    requires Told(s)
    decreases |es|
  {
    es != [] ==>
      && Possible(s, es[0]) && !Overflows(s, es[0]) && !Loses(s, es[0])
      && (StepInforms(s, es[0]); Lossless(After(s, es[0]), es[1..]))
  }

  ghost function AfterAll(s: State, es: seq<Event>): (r: State)
    requires Told(s) && Lossless(s, es)
    ensures Told(r)
    decreases |es|
  {
    if es == [] then s
    else
      StepInforms(s, es[0]);
      AfterAll(After(s, es[0]), es[1..])
  }

  /** There is a table, or the client knows nothing yet. */
  predicate Begun(s: State) {
    s.valid || s.view == []
  }

  lemma {:induction false} StaysBegun(s: State, es: seq<Event>)
    requires Told(s) && Begun(s) && Lossless(s, es)
    ensures Begun(AfterAll(s, es))
    decreases |es|
  {
    hide Loses, Told, AfterSync, AfterExpunge, Possible, Overflows;
    if es != [] {
      StepInforms(s, es[0]);
      StepBegun(s, es[0]);
      StaysBegun(After(s, es[0]), es[1..]);
    }
  }

  lemma StepBegun(s: State, e: Event)
    requires Told(s) && Possible(s, e) && !Overflows(s, e) && Begun(s)
    ensures Begun(After(s, e))
  {
  }

  /** After any run that loses nothing, the next look at the mailbox leaves the client
      with beliefs that are all true of it. */
  lemma RunInforms(box: seq<Message>, capacity: nat, es: seq<Event>, recent: nat)
    ensures var s := State(box, [], false, [], capacity);
      Told(s) && (Lossless(s, es) ==>
        var r := AfterAll(s, es);
        True(AfterSync(r, false, false, recent).view, AllFlags(r.box)))
  {
    hide AfterSync, Loses;
    var s := State(box, [], false, [], capacity);
    if Lossless(s, es) {
      StaysBegun(s, es);
      LookInforms(AfterAll(s, es), recent);
    }
  }

  lemma LookInforms(s: State, recent: nat)
    requires Told(s) && Begun(s)
    ensures True(AfterSync(s, false, false, recent).view, AllFlags(s.box))
  {
    SyncInforms(s, false, false, recent);
  }

  /** A message that another program has marked as read, and an EXPUNGE before the next
      look at the mailbox: the client goes on believing it unread. */
  lemma ChangeIsLost(id: nat, recent: nat)
    ensures var s := State([Message(id, {Read}, {})], [{}], true, [Some({})], 1);
      Told(s) && !Told(After(s, Expunges(recent)))
  {
    var s := State([Message(id, {Read}, {})], [{}], true, [Some({})], 1);
    assert Read in Visible({Read}) && Visible({}) == {};
    assert Stale(s, 0);
    StepInforms(s, Expunges(recent));
  }

  /** The same with a silent STORE of another flag in between. */
  lemma ChangeIsHidden(id: nat)
    ensures var s := State([Message(id, {Read}, {})], [{}], true, [Some({})], 1);
      Told(s) && Possible(s, Stores([1], Add, {Flagged}, false)) && !Told(After(s, Stores([1], Add, {Flagged}, false)))
  {
    var s := State([Message(id, {Read}, {})], [{}], true, [Some({})], 1);
    assert Read in Visible({Read}) && Visible({}) == {};
    assert Read in Meant(Add, {Flagged}, Visible({Read})) && Read !in Meant(Add, {Flagged}, Visible({}));
    assert Stale(s, 0) && 0 + 1 in [1];
    StepInforms(s, Stores([1], Add, {Flagged}, false));
  }
}
