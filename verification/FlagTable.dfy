/** `sync.c`: the table of flags the client has been told, kept in an array that grows
    and is reused, and the commands that write to it. */
module FlagTable {
  import opened Text
  import opened Mailbox
  import opened ClientView

  /** `attr_table` with its capacity, `attr_table_count`, and the mailbox behind it. */
  class Selected {
    var mem: seq<Flags>
    var count: nat
    var valid: bool
    var box: seq<Message>
    var log: seq<Notice>

    /** A mailbox just selected: no table yet, but the memory of the one before. */
    constructor (box: seq<Message>, mem: seq<Flags>)
      ensures InBounds() && Now() == State(box, [], false, [], |mem|) && log == []
    {
      this.box, this.mem, count, valid, log := box, mem, 0, false, [];
    }

    /** What the client has made of everything it learnt. */
    ghost function View(): View
      reads this`log
    {
      TakeAll([], log)
    }

    ghost function Now(): State
      reads this
      requires InBounds()
    {
      State(box, Table(), valid, View(), |mem|)
    }

    /** The count never exceeds the capacity. */
    ghost predicate InBounds()
      reads this
    {
      count <= |mem|
    }

    ghost function Table(): seq<Flags>
      reads this
      requires InBounds()
    {
      mem[..count]
    }

    /** The table is the mailbox's flags as last reported, for every message. */
    ghost predicate UpToDate()
      reads this
    {
      InBounds() && valid && Table() == AllFlags(box)
    }

    /** `realloc_attributes`: what was there stays, up to the new count. */
    method Realloc(total: nat)
      requires InBounds()
      modifies this`mem, this`count
      ensures InBounds() && count == total && |mem| == Most(|old(mem)|, total)
      ensures forall i :: 0 <= i < |old(mem)| ==> mem[i] == old(mem)[i]
    {
      if total > |mem| { mem := mem + seq(total - |mem|, _ => {}); }
      count := total;
    }

    /** `imap4d_sync_invalidate`. */
    method Invalidate()
      modifies this`valid, this`count
      ensures !valid && InBounds() && Table() == []
    {
      valid := false;
      count := 0;
    }

    /** `reread_attributes`. */
    method Reread()
      requires InBounds()
      modifies this`mem, this`count, this`valid
      ensures UpToDate() && |mem| == Most(|old(mem)|, |box|)
    {
      Realloc(|box|);
      var i := 0;
      while i < |box|
        invariant 0 <= i <= |box| == count <= |mem| == Most(|old(mem)|, |box|)
        invariant forall k :: 0 <= k < i ==> mem[k] == box[k].flags
      {
        mem := mem[i := box[i].flags];
        i := i + 1;
      }
      assert mem[..count] == AllFlags(box);
      valid := true;
    }

    /** The loop of `notify` over all messages: changes are reported and noted. */
    method Report()
      requires InBounds()
      modifies this`mem, this`count, this`log
      ensures InBounds() && Table() == AllFlags(box) && |mem| == Most(|old(mem)|, |box|)
      ensures log == old(log) + Changes(old(Table()), AllFlags(box), Least(old(count), |box|))
    {
      hide Changes, AllFlags, Visible;
      ghost var was, t0, flags := log, Table(), AllFlags(box);
      NoChanges(t0, flags);
      var oldTotal := count;
      ghost var most := Least(oldTotal, |box|);
      Realloc(|box|);
      var i := 0;
      EmptyConcat(was);
      while i < |box|
        invariant 0 <= i <= |box| == count <= |mem| == Most(|old(mem)|, |box|)
        invariant forall k :: 0 <= k < i ==> mem[k] == flags[k]
        invariant forall k :: i <= k < most ==> mem[k] == t0[k]
        invariant log == was + Changes(t0, flags, Least(i, most))
      {
        var nflags := box[i].flags;
        if i < oldTotal {
          ChangesStep(was, t0, flags, i);
          if nflags != mem[i] {
            log := log + [FetchFlags(i + 1, Visible(nflags))];
            mem := mem[i := nflags];
          }
        } else {
          mem := mem[i := nflags];
        }
        i := i + 1;
      }
      assert mem[..count] == flags;
    }

    /** `notify`. */
    method Notify(recent: nat)
      requires InBounds()
      modifies this`mem, this`count, this`valid, this`log
      ensures UpToDate() && |mem| == Most(|old(mem)|, |box|)
      ensures old(valid) ==>
        log == old(log) + (Changes(old(Table()), AllFlags(box), Least(old(count), |box|)) + Counts(|box|, recent))
      ensures !old(valid) ==> log == old(log) + Counts(|box|, recent)
    {
      ghost var was, t0 := log, Table();
      if !valid {
        Reread();
      } else {
        Report();
        ConcatAssoc(was, Changes(t0, AllFlags(box), Least(|t0|, |box|)), Counts(|box|, recent));
      }
      log := log + [Exists(|box|), Recent(recent)];
    }

    /** `imap4d_sync` with a mailbox selected: `updated` is what the mailbox says of
        itself, and a mailbox that some other program has cut is opened again. */
    method Sync(updated: bool, corrupt: bool, recent: nat)
      requires InBounds()
      modifies this`mem, this`count, this`valid, this`log
      ensures InBounds() && count == |box|
      ensures log == old(log) + SyncSays(old(Now()), updated, corrupt, recent)
      ensures Now() == AfterSync(old(Now()), updated, corrupt, recent)
    {
      hide Changes, Counts, AllFlags;
      ghost var s, was := Now(), log;
      EmptyConcat(was);
      if !valid || !updated {
        if corrupt {
          Invalidate();
          log := log + [Alert];
          ConcatAssoc(was, [Alert], Counts(|box|, recent));
        } else {
          EmptyConcat(Counts(|box|, recent));
        }
        Notify(recent);
      } else if |box| != count {
        Notify(recent);
      }
      TakeConcat([], was, SyncSays(s, updated, corrupt, recent));
    }

    /** `imap4d_sync_flags`: after the server's own change, the client need not be told
        again.  `ok` is false where the source writes outside the table. */
    method SyncFlags(msgno: nat) returns (ok: bool)
      requires InBounds() && 1 <= msgno <= |box|
      modifies this`mem
      ensures ok <==> |mem| == 0 || msgno <= |mem|
      ensures InBounds() && |mem| == |old(mem)|
      ensures ok && msgno <= count ==> Table() == old(Table())[msgno - 1 := box[msgno - 1].flags]
      ensures ok && msgno > count ==> Table() == old(Table())
    {
      ok := true;
      if |mem| > 0 {
        if msgno > |mem| { return false; }
        mem := mem[msgno - 1 := box[msgno - 1].flags];
      }
    }

    /** `_do_store` on one message. */
    method StoreOne(n: nat, how: How, t: Flags, ack: bool) returns (ok: bool)
      requires InBounds() && 1 <= n <= |box|
      modifies this`box, this`mem, this`log
      ensures ok <==> |mem| == 0 || n <= |mem|
      ensures InBounds() && |mem| == |old(mem)|
      ensures box == old(box)[n - 1 := StoredMessage(old(box)[n - 1], how, t)]
      ensures ok ==> Table() == if n <= count then old(Table())[n - 1 := box[n - 1].flags] else old(Table())
      ensures log == old(log) + [StoreSays(n, how, t, box[n - 1].flags, ack)]
    {
      box := box[n - 1 := box[n - 1].(flags := Stored(how, t, box[n - 1].flags))];
      log := log + [if ack then FetchFlags(n, Visible(box[n - 1].flags)) else OwnStore(n, how, t)];
      ok := SyncFlags(n);
    }

    /** The loop of STORE over its messages, in any order, with `ack` for the form that is
        not silent.  Every write is inside the table if and only if no number exceeds the
        memory there is for it. */
    method StoreAll(msgnos: seq<nat>, how: How, t: Flags, ack: bool) returns (ok: bool)
      requires InBounds() && Possible(Now(), Stores(msgnos, how, t, ack))
      modifies this`box, this`mem, this`log
      ensures InBounds()
      ensures ok <==> !Overflows(old(Now()), Stores(msgnos, how, t, ack))
      ensures ok ==> Now() == AfterStore(old(Now()), msgnos, how, t, ack)
      ensures ok ==> |log| == |old(log)| + |msgnos| && log[..|old(log)|] == old(log)
    {
      hide AfterStore, TakeAll, Take;
      var i := 0;
      ghost var s := Now();
      assert msgnos[..0] == [];
      NothingStored(s, how, t, ack);
      while i < |msgnos|
        invariant 0 <= i <= |msgnos| && InBounds() && |box| == |s.box| && |mem| == s.capacity
        invariant Now() == AfterStore(s, msgnos[..i], how, t, ack)
        invariant |mem| > 0 ==> Numbers(msgnos[..i], |mem|)
        invariant |log| == |old(log)| + i && log[..|old(log)|] == old(log)
      {
        var n := msgnos[i];
        assert msgnos[..i + 1] == msgnos[..i] + [n];
        StoreStep(s, msgnos[..i], n, how, t, ack);
        ghost var l := log;
        ok := StoreOne(n, how, t, ack);
        if !ok { return; }
        TakeSnoc([], l, log[|l|]);
        i := i + 1;
      }
      assert msgnos[..i] == msgnos;
      ok := true;
    }

    /** `imap4d_expunge`: the reports come from the mailbox, then the table is thrown
        away and read anew. */
    method ExpungeCommand(updated: bool, recent: nat)
      requires InBounds()
      modifies this
      ensures UpToDate() && log == old(log) + ExpungeSays(old(box), recent)
      ensures Now() == AfterExpunge(old(Now()), recent)
    {
      hide Kept, Reported, Announce, Counts, AllFlags, TakeAll, SyncSays, AfterSync;
      ghost var was, gone := log, Announce(Reported(box));
      var left, reports := Expunge(box);
      box := left;
      log := log + Announce(reports);
      Invalidate();
      FirstSync(Now(), updated, recent);
      Sync(updated, false, recent);
      ConcatAssoc(was, gone, Counts(|box|, recent));
      TakeConcat([], was + gone, Counts(|box|, recent));
      TakeConcat([], was, gone + Counts(|box|, recent));
      ConcatAssoc(was, gone, Counts(|box|, recent));
    }
  }

  /** What a STORE tells the client, or lets it work out. */
  function StoreSays(n: nat, how: How, t: Flags, f: Flags, ack: bool): Notice {
    if ack then FetchFlags(n, Visible(f)) else OwnStore(n, how, t)
  }

  /** A sync without a table. */
  lemma FirstSync(s: State, updated: bool, recent: nat)
    requires !s.valid
    ensures SyncSays(s, updated, false, recent) == Counts(|s.box|, recent)
    ensures AfterSync(s, updated, false, recent)
      == State(s.box, AllFlags(s.box), true, TakeAll(s.view, Counts(|s.box|, recent)), Most(s.capacity, |s.box|))
  {
    EmptyConcat(Counts(|s.box|, recent));
  }

  lemma NothingStored(s: State, how: How, t: Flags, ack: bool)
    ensures AfterStore(s, [], how, t, ack) == s
  {
  }

  /** One more message: storing in one that has been stored in changes nothing. */
  lemma StoreStep(s: State, done: seq<nat>, n: nat, how: How, t: Flags, ack: bool)
    requires 1 <= n <= |s.box| && t <= STORABLE
    ensures var r, q := AfterStore(s, done, how, t, ack), AfterStore(s, done + [n], how, t, ack);
      var m := StoredMessage(r.box[n - 1], how, t);
      && q.box == r.box[n - 1 := m] && q.valid == r.valid && q.capacity == r.capacity
      && q.table == (if n <= |r.table| then r.table[n - 1 := m.flags] else r.table)
      && q.view == Take(r.view, StoreSays(n, how, t, m.flags, ack))
  {
    hide Stored, Visible, Meant;
    var r, q := AfterStore(s, done, how, t, ack), AfterStore(s, done + [n], how, t, ack);
    var m := StoredMessage(r.box[n - 1], how, t);
    StoreTwice(how, t, s.box[n - 1].flags);
    assert n == (n - 1) + 1;
    assert m == StoredMessage(s.box[n - 1], how, t);
    assert forall k :: k in done + [n] <==> k in done || k == n;
    assert q.box == r.box[n - 1 := m];
    assert q.table == if n <= |r.table| then r.table[n - 1 := m.flags] else r.table;
    ViewStep(s, done, n, how, t, ack);
  }

  lemma ViewStep(s: State, done: seq<nat>, n: nat, how: How, t: Flags, ack: bool)
    requires 1 <= n <= |s.box| && t <= STORABLE
    ensures var r, q := AfterStore(s, done, how, t, ack), AfterStore(s, done + [n], how, t, ack);
      q.view == Take(r.view, StoreSays(n, how, t, Stored(how, t, s.box[n - 1].flags), ack))
  {
    hide Stored, Visible, Meant;
    var r, q := AfterStore(s, done, how, t, ack), AfterStore(s, done + [n], how, t, ack);
    var v := Take(r.view, StoreSays(n, how, t, Stored(how, t, s.box[n - 1].flags), ack));
    assert n == (n - 1) + 1;
    assert forall k :: k in done + [n] <==> k in done || k == n;
    if n <= |s.view| {
      if s.view[n - 1].Some? { MeantTwice(how, t, s.view[n - 1].value); }
      assert v[n - 1] == q.view[n - 1];
    }
    assert v == q.view;
  }

  lemma MeantTwice(how: How, t: Flags, f: Flags)
    ensures Meant(how, t, Meant(how, t, f)) == Meant(how, t, f)
  {
  }
}
