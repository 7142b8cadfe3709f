/** COPY: all messages or none.  What `safe_copy` does when a copy fails half way,
    and exactly when that restores the destination. */
module CopyCommand {
  import opened Text
  import opened Mailbox

  /** What can go wrong: the size of some message is not known, the quota is exceeded, or
      messages at some places of the set cannot be appended. */
  datatype World = World(sizesOk: bool, quotaOk: bool, bad: set<nat>)

  /** A message set: its ranges, in order. */
  type Ranges = seq<seq<Message>>

  function Flatten(ranges: Ranges): seq<Message> {
    if ranges == [] then [] else ranges[0] + Flatten(ranges[1..])
  }

  /** Those of the messages from place `at` on that can be appended. */
  function Appendable(msgs: seq<Message>, bad: set<nat>, at: nat): seq<Message>
    decreases |msgs|
  {
    if msgs == [] then []
    else
      var last := |msgs| - 1;
      Appendable(msgs[..last], bad, at) + (if at + last in bad then [] else [msgs[last]])
  }

  /** `procrange` goes on behind a failure and returns what its last message gave; only a
      range that ends in a failure ends the whole. */
  predicate EndsBadly(range: seq<Message>, bad: set<nat>, at: nat) {
    range != [] && at + |range| - 1 in bad
  }

  /** What is appended of all the ranges from place `at` on. */
  function Appended(ranges: Ranges, bad: set<nat>, at: nat): seq<Message>
    decreases |ranges|
  {
    if ranges == [] then []
    else
      Appendable(ranges[0], bad, at)
      + (if EndsBadly(ranges[0], bad, at) then [] else Appended(ranges[1..], bad, at + |ranges[0]|))
  }

  predicate AnyBad(bad: set<nat>, from: nat, to: nat) {
    exists k :: from <= k < to && k in bad
  }

  /** What is in the destination besides its own messages when copying ends. */
  function Copied(ranges: Ranges, w: World): seq<Message> {
    if w.sizesOk && w.quotaOk then Appended(ranges, w.bad, 0) else []
  }

  predicate Fails(w: World, n: nat) {
    !w.sizesOk || !w.quotaOk || AnyBad(w.bad, 0, n)
  }

  lemma {:induction false} AllAppendable(msgs: seq<Message>, bad: set<nat>, at: nat)
    requires !AnyBad(bad, at, at + |msgs|)
    ensures Appendable(msgs, bad, at) == msgs
    decreases |msgs|
  {
    if msgs != [] {
      var last := |msgs| - 1;
      AllAppendable(msgs[..last], bad, at);
      assert msgs == msgs[..last] + [msgs[last]];
    }
  }

  lemma {:induction false} AllAppended(ranges: Ranges, bad: set<nat>, at: nat)
    requires !AnyBad(bad, at, at + |Flatten(ranges)|)
    ensures Appended(ranges, bad, at) == Flatten(ranges)
    decreases |ranges|
  {
    if ranges != [] {
      AllAppendable(ranges[0], bad, at);
      AllAppended(ranges[1..], bad, at + |ranges[0]|);
    }
  }

  /** The user flag that rollback sets on the messages from number `from` on. */
  function Marked(box: seq<Message>, from: nat): (r: seq<Message>)
    ensures |r| == |box|
    ensures forall i :: 0 <= i < |box| ==>
      r[i] == (if i < from then box[i] else box[i].(userFlags := box[i].userFlags + {Deleted}))
  {
    seq(|box|, i requires 0 <= i < |box| =>
      if i < from then box[i] else box[i].(userFlags := box[i].userFlags + {Deleted}))
  }

  function SeenMessage(m: Message): Message {
    m.(flags := SetFlags(m.flags, {Seen}))
  }

  /** `mu_mailbox_flush` marks every message as seen. */
  function AllSeen(box: seq<Message>): (r: seq<Message>)
    ensures |r| == |box| && forall i :: 0 <= i < |box| ==> r[i] == SeenMessage(box[i])
  {
    seq(|box|, i requires 0 <= i < |box| => SeenMessage(box[i]))
  }

  /** `mu_mailbox_flush` with expunging. */
  function Flushed(box: seq<Message>): seq<Message> {
    Kept(AllSeen(box))
  }

  /** The destination after a copy that failed. */
  function RolledBack(dst: seq<Message>, copies: seq<Message>): seq<Message> {
    Flushed(Marked(dst + copies, |dst|))
  }

  /** One range: every message is tried, and the result is that of the last. */
  method CopyRange(box0: seq<Message>, range: seq<Message>, bad: set<nat>, at: nat)
    returns (box: seq<Message>, rc: bool, anyBad: bool)
    ensures box == box0 + Appendable(range, bad, at)
    ensures rc <==> !EndsBadly(range, bad, at)
    ensures anyBad <==> AnyBad(bad, at, at + |range|)
  {
    box, rc, anyBad := box0, true, false;
    EmptyConcat(box0);
    assert range[..0] == [];
    var i := 0;
    while i < |range|
      invariant 0 <= i <= |range| && box == box0 + Appendable(range[..i], bad, at)
      invariant rc <==> !EndsBadly(range[..i], bad, at)
      invariant anyBad <==> AnyBad(bad, at, at + i)
    {
      ghost var done := Appendable(range[..i], bad, at);
      assert range[..i + 1][..i] == range[..i];
      if at + i in bad {
        rc, anyBad := false, true;
        EmptyConcat(done);
      } else {
        rc := true;
        ConcatAssoc(box0, done, [range[i]]);
        box := box + [range[i]];
      }
      i := i + 1;
    }
    assert range[..i] == range;
  }

  /** `try_copy`: sizes and quota first, then range by range. */
  method TryCopy(dst: seq<Message>, ranges: Ranges, w: World) returns (box: seq<Message>, ok: bool)
    ensures ok <==> !Fails(w, |Flatten(ranges)|)
    ensures box == dst + Copied(ranges, w)
  {
    hide Appendable, EndsBadly, Appended, Flatten;
    box, ok := dst, true;
    EmptyConcat(dst);
    if !w.sizesOk || !w.quotaOk { return box, false; }
    var i: nat, at: nat := 0, 0;
    assert ranges[0..] == ranges;
    while i < |ranges|
      invariant 0 <= i <= |ranges| && at + |Flatten(ranges[i..])| == |Flatten(ranges)|
      invariant dst + Appended(ranges, w.bad, 0) == box + Appended(ranges[i..], w.bad, at)
      invariant ok <==> !AnyBad(w.bad, 0, at)
    {
      assert ranges[i..][0] == ranges[i] && ranges[i..][1..] == ranges[i + 1..];
      RangeStep(ranges[i..], w.bad, at);
      ghost var b := box;
      var rc, anyBad;
      box, rc, anyBad := CopyRange(box, ranges[i], w.bad, at);
      ConcatAssoc(b, Appendable(ranges[i], w.bad, at), Appended(ranges[i + 1..], w.bad, at + |ranges[i]|));
      ok := ok && !anyBad;
      at := at + |ranges[i]|;
      if !rc {
        LastIsBad(ranges[i], w.bad, at - |ranges[i]|);
        EmptyConcat(Appendable(ranges[i], w.bad, at - |ranges[i]|));
        return box, false;
      }
      i := i + 1;
    }
    assert ranges[i..] == [];
    RangesEnd(w.bad, at);
    EmptyConcat(box);
  }

  lemma RangesEnd(bad: set<nat>, at: nat)
    ensures Appended([], bad, at) == [] && Flatten([]) == []
  {
  }

  lemma RangeStep(ranges: Ranges, bad: set<nat>, at: nat)
    requires ranges != []
    ensures |Flatten(ranges)| == |ranges[0]| + |Flatten(ranges[1..])|
    ensures Appended(ranges, bad, at) == Appendable(ranges[0], bad, at)
      + (if EndsBadly(ranges[0], bad, at) then [] else Appended(ranges[1..], bad, at + |ranges[0]|))
  {
  }

  lemma LastIsBad(range: seq<Message>, bad: set<nat>, at: nat)
    requires EndsBadly(range, bad, at)
    ensures range != [] && at + |range| - 1 in bad
  {
  }

  /** The rollback loop. */
  method Mark(box0: seq<Message>, from: nat) returns (box: seq<Message>)
    requires from <= |box0|
    ensures box == Marked(box0, from)
  {
    box := box0;
    var n := from;
    while n < |box0|
      invariant from <= n <= |box0| && |box| == |box0|
      invariant forall i :: 0 <= i < |box0| ==>
        box[i] == (if from <= i < n then box0[i].(userFlags := box0[i].userFlags + {Deleted}) else box0[i])
    {
      box := box[n := box[n].(userFlags := box[n].userFlags + {Deleted})];
      n := n + 1;
    }
  }

  method Flush(box0: seq<Message>) returns (box: seq<Message>)
    ensures box == Flushed(box0)
  {
    var seen := box0;
    var i := 0;
    while i < |box0|
      invariant 0 <= i <= |box0| && |seen| == |box0|
      invariant forall k :: 0 <= k < |box0| ==> seen[k] == (if k < i then SeenMessage(box0[k]) else box0[k])
    {
      seen := seen[i := SeenMessage(seen[i])];
      i := i + 1;
    }
    assert seen == AllSeen(box0);
    ghost var reports;
    box, reports := Expunge(seen);
  }

  /** `safe_copy`. */
  method SafeCopy(dst: seq<Message>, ranges: Ranges, w: World) returns (box: seq<Message>, ok: bool)
    ensures ok <==> !Fails(w, |Flatten(ranges)|)
    ensures ok ==> box == dst + Flatten(ranges)
    ensures !ok ==> box == RolledBack(dst, Copied(ranges, w))
  {
    hide Appended, Flatten, RolledBack, Marked, Flushed;
    box, ok := TryCopy(dst, ranges, w);
    if ok {
      AllAppended(ranges, w.bad, 0);
    } else {
      box := Mark(box, |dst|);
      box := Flush(box);
      RollingBack(dst, Copied(ranges, w));
    }
  }

  lemma RollingBack(dst: seq<Message>, copies: seq<Message>)
    ensures RolledBack(dst, copies) == Flushed(Marked(dst + copies, |dst|))
  {
  }

  // ----- does rollback restore the destination? -----

  lemma {:induction false} KeptConcat(a: seq<Message>, b: seq<Message>)
    ensures Kept(a + b) == Kept(a) + Kept(b)
    decreases |b|
  {
    if b == [] {
      EmptyConcat(a);
      EmptyConcat(Kept(a));
    } else {
      var front, last := b[..|b| - 1], b[|b| - 1];
      assert (a + b)[..|a + b| - 1] == a + front && (a + b)[|a + b| - 1] == last;
      KeptConcat(a, front);
      ConcatAssoc(Kept(a), Kept(front), if Deleted in last.flags then [] else [last]);
    }
  }

  /** What stays is a part of the mailbox; all of it exactly if nothing is deleted. */
  lemma {:induction false} KeptLength(box: seq<Message>)
    ensures |Kept(box)| <= |box|
    ensures |Kept(box)| == |box| <==> Kept(box) == box
    ensures Kept(box) == box <==> forall i :: 0 <= i < |box| ==> Deleted !in box[i].flags
    decreases |box|
  {
    if box != [] {
      var front, last := box[..|box| - 1], box[|box| - 1];
      KeptLength(front);
      assert box == front + [last];
      assert forall i :: 0 <= i < |front| ==> front[i] == box[i];
    }
  }

  lemma {:induction false} NothingKept(box: seq<Message>)
    ensures Kept(box) == [] <==> forall i :: 0 <= i < |box| ==> Deleted in box[i].flags
    decreases |box|
  {
    if box != [] {
      var front := box[..|box| - 1];
      NothingKept(front);
      assert forall i :: 0 <= i < |front| ==> front[i] == box[i];
    }
  }

  lemma {:induction false} KeptIsNotDeleted(box: seq<Message>)
    ensures forall i :: 0 <= i < |Kept(box)| ==> Deleted !in Kept(box)[i].flags
    decreases |box|
  {
    if box != [] { KeptIsNotDeleted(box[..|box| - 1]); }
  }

  predicate NoneDeleted(box: seq<Message>) {
    forall i :: 0 <= i < |box| ==> Deleted !in box[i].flags
  }

  predicate AllDeleted(box: seq<Message>) {
    forall i :: 0 <= i < |box| ==> Deleted in box[i].flags
  }

  predicate EachSeen(box: seq<Message>) {
    forall i :: 0 <= i < |box| ==> Seen in box[i].flags
  }

  lemma SeenKeepsDeleted(m: Message)
    ensures Deleted in SeenMessage(m).flags <==> Deleted in m.flags
    ensures SeenMessage(m) == m <==> Seen in m.flags
  {
  }

  lemma SeenAll(box: seq<Message>)
    ensures AllSeen(box) == box <==> EachSeen(box)
    ensures NoneDeleted(AllSeen(box)) <==> NoneDeleted(box)
    ensures AllDeleted(AllSeen(box)) <==> AllDeleted(box)
  {
    var s := AllSeen(box);
    forall i | 0 <= i < |box|
      ensures (Deleted in s[i].flags <==> Deleted in box[i].flags) && (s[i] == box[i] <==> Seen in box[i].flags)
    {
      SeenKeepsDeleted(box[i]);
    }
    if AllSeen(box) == box {
      forall i | 0 <= i < |box| ensures Seen in box[i].flags { assert s[i] == box[i]; }
    }
  }

  lemma RolledBackParts(dst: seq<Message>, copies: seq<Message>)
    ensures RolledBack(dst, copies) == Kept(AllSeen(dst)) + Kept(AllSeen(Marked(copies, 0)))
  {
    assert AllSeen(Marked(dst + copies, |dst|)) == AllSeen(dst) + AllSeen(Marked(copies, 0));
    KeptConcat(AllSeen(dst), AllSeen(Marked(copies, 0)));
  }

  lemma MarkedDeleted(copies: seq<Message>)
    ensures AllDeleted(Marked(copies, 0)) <==> AllDeleted(copies)
  {
    var m := Marked(copies, 0);
    assert forall i :: 0 <= i < |copies| ==> m[i].flags == copies[i].flags;
    if AllDeleted(m) {
      forall i | 0 <= i < |copies| ensures Deleted in copies[i].flags { assert Deleted in m[i].flags; }
    }
  }

  /** A failed COPY leaves the destination as it was if and only if no message in it
      was deleted, all of them were seen, and all that were copied before the failure
      were deleted ones: rollback sets a user flag, which expunging does not look at,
      and then expunges the whole mailbox. */
  lemma RollbackIsExact(dst: seq<Message>, copies: seq<Message>)
    ensures RolledBack(dst, copies) == dst <==> NoneDeleted(dst) && EachSeen(dst) && AllDeleted(copies)
  {
    var a, b := AllSeen(dst), AllSeen(Marked(copies, 0));
    hide AllSeen, Marked;
    RolledBackParts(dst, copies);
    KeptLength(a);
    NothingKept(b);
    SeenAll(dst);
    SeenAll(Marked(copies, 0));
    MarkedDeleted(copies);
    if RolledBack(dst, copies) == dst {
      KeptPartsNotDeleted(a, b, dst);
      assert Kept(b) == [];
      EmptyConcat(Kept(a));
    } else {
      EmptyConcat(a);
    }
  }

  lemma KeptPartsNotDeleted(a: seq<Message>, b: seq<Message>, dst: seq<Message>)
    requires Kept(a) + Kept(b) == dst && |a| == |dst| && (NoneDeleted(a) <==> NoneDeleted(dst))
    ensures NoneDeleted(dst) && Kept(a) == a && Kept(b) == []
  {
    KeptIsNotDeleted(a);
    KeptIsNotDeleted(b);
    forall i | 0 <= i < |dst| ensures Deleted !in dst[i].flags {
      if i < |Kept(a)| { assert dst[i] == Kept(a)[i]; } else { assert dst[i] == Kept(b)[i - |Kept(a)|]; }
    }
    KeptLength(a);
  }

  /** A set that fails half way leaves copies behind unless all of them were deleted. */
  lemma FailedCopyStays(dst: seq<Message>, ranges: Ranges, w: World)
    ensures RolledBack(dst, Copied(ranges, w)) == dst
      <==> NoneDeleted(dst) && EachSeen(dst) && AllDeleted(Copied(ranges, w))
  {
    RollbackIsExact(dst, Copied(ranges, w));
  }

  /** The smallest case that fails: one message copied, the next one not. */
  lemma CopyLeavesTheFirst(m: Message, m': Message)
    requires Deleted !in m.flags
    ensures RolledBack([], Copied([[m, m']], World(true, true, {1}))) != []
  {
    CopiedOfTwo(m, m');
    RollbackIsExact([], [m]);
    assert Deleted !in [m][0].flags;
  }

  lemma CopiedOfTwo(m: Message, m': Message)
    ensures Copied([[m, m']], World(true, true, {1})) == [m]
  {
    var r := [m, m'];
    assert r[..1] == [m] && [m][..0] == [];
    assert Appendable([m], {1}, 0) == [m];
    assert Appendable(r, {1}, 0) == [m] + [];
    EmptyConcat([m]);
  }

  /** Of three messages in one range the third is still copied when the second fails. */
  lemma CopyGoesOn(a: Message, b: Message, c: Message)
    ensures Fails(World(true, true, {1}), 3) && Copied([[a, b, c]], World(true, true, {1})) == [a, c]
  {
    var r := [a, b, c];
    assert 1 in {1};
    assert r[..2] == [a, b] && [a, b][..1] == [a] && [a][..0] == [];
    assert Appendable([a], {1}, 0) == [a];
    assert Appendable([a, b], {1}, 0) == [a];
    assert Appendable(r, {1}, 0) == [a, c];
    var all: Ranges := [r];
    assert all[1..] == [] && Appended([], {1}, 3) == [];
    assert Appended(all, {1}, 0) == [a, c] + [];
    EmptyConcat([a, c]);
  }
}
