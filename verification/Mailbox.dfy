/** The selected mailbox as the client sees it: message flags, the table of flags
    the server last reported, and the renumbering done by EXPUNGE. */
module Mailbox {
  import opened Text

  datatype Flag = Answered | Flagged | Deleted | Draft | Seen | Read | Modified | Forwarded
  type Flags = set<Flag>

  /** A message: what it is, its attribute flags, and its user flags. */
  datatype Message = Message(id: nat, flags: Flags, userFlags: Flags)

  const ALL_FLAGS: Flags := {Answered, Flagged, Deleted, Draft, Seen, Read, Modified, Forwarded}

  // ----- attributes -----

  /** `mu_attribute_set_flags`: nothing happens if they are set already. */
  function SetFlags(f: Flags, t: Flags): Flags {
    if t <= f then f else f + t + {Modified}
  }

  /** `mu_attribute_unset_flags`. */
  function UnsetFlags(f: Flags, t: Flags): Flags {
    if f * t == {} then f else f - t + {Modified}
  }

  /** The flags a client can store.  \Seen of the protocol is `Read` here. */
  const STORABLE: Flags := {Answered, Flagged, Deleted, Draft, Read}

  /** What `mu_imap_format_flags` shows: these, and \Recent unless the message has been
      seen. */
  function Visible(f: Flags): Flags {
    f * (STORABLE + {Seen})
  }

  predicate IsRecent(f: Flags) {
    Seen !in f
  }

  // ----- STORE -----

  datatype How = Set | Add | Unset

  /** `_do_store`. */
  function Stored(how: How, t: Flags, f: Flags): Flags {
    match how
    case Add => SetFlags(f, t)
    case Unset => UnsetFlags(f, t)
    case Set => SetFlags(UnsetFlags(f, ALL_FLAGS), t)
  }

  /** FLAGS, +FLAGS and -FLAGS as section 6.4.6 of RFC 3501 defines them. */
  function Meant(how: How, t: Flags, f: Flags): Flags {
    match how
    case Add => f + t
    case Unset => f - t
    case Set => t
  }

  /** For every message and every list of flags, STORE does what it should to the flags
      that can be stored. */
  lemma StoreIsMeant(how: How, t: Flags, f: Flags)
    requires t <= STORABLE
    ensures Stored(how, t, f) * STORABLE == Meant(how, t, f * STORABLE)
  {
    if how == Set { AllCleared(f); }
  }

  /** What a client sees of it. */
  lemma StoreIsSeen(how: How, t: Flags, f: Flags)
    requires t <= STORABLE
    ensures Visible(Stored(how, t, f)) == Meant(how, t, Visible(f))
  {
    if how == Set { AllCleared(f); }
  }

  /** \Recent cannot be stored, and must not change (section 6.4.6 of RFC 3501).  It
      stays as it is exactly if flags are added or taken away, or the message was
      recent: replacing them makes any message recent. */
  lemma StoreKeepsRecent(how: How, t: Flags, f: Flags)
    requires t <= STORABLE
    ensures (IsRecent(Stored(how, t, f)) <==> IsRecent(f)) <==> how != Set || IsRecent(f)
  {
    if how == Set { AllCleared(f); }
  }

  /** A message that was seen and is recent again after a STORE. */
  lemma StoreMakesRecent(t: Flags)
    requires t <= STORABLE
    ensures !IsRecent({Seen, Read}) && IsRecent(Stored(Set, t, {Seen, Read}))
  {
    StoreKeepsRecent(Set, t, {Seen, Read});
  }

  lemma AllCleared(f: Flags)
    ensures UnsetFlags(f, ALL_FLAGS) <= {Modified}
  {
    forall x | x in f ensures x in ALL_FLAGS {
      match x
      case Answered => case Flagged => case Deleted => case Draft =>
      case Seen => case Read => case Modified => case Forwarded =>
    }
    assert f * ALL_FLAGS == f;
  }

  /** Storing twice is storing once. */
  lemma StoreTwice(how: How, t: Flags, f: Flags)
    requires t <= STORABLE
    ensures Stored(how, t, Stored(how, t, f)) == Stored(how, t, f)
  {
    if how == Set {
      AllCleared(f);
      AllCleared(Stored(how, t, f));
    }
  }

  // ----- the UID in the response to UID STORE -----

  predicate Increasing(uids: seq<nat>) {
    && (forall i, j :: 0 <= i < j < |uids| ==> uids[i] < uids[j])
    && (forall i :: 0 <= i < |uids| ==> uids[i] > 0)
  }

  /** `mu_mailbox_translate` from UIDs to message numbers. */
  function UidToMsgno(uids: seq<nat>, uid: nat): (r: Option<nat>)
    ensures r.Some? ==> 1 <= r.value <= |uids| && uids[r.value - 1] == uid
    ensures r.None? ==> uid !in uids
    decreases |uids|
  {
    if uids == [] then None
    else if uids[|uids| - 1] == uid then Some(|uids|)
    else UidToMsgno(uids[..|uids| - 1], uid)
  }

  lemma {:induction false} UidAtLeastNumber(uids: seq<nat>, i: nat)
    requires Increasing(uids) && i < |uids|
    ensures uids[i] >= i + 1
  {
    if i > 0 { UidAtLeastNumber(uids, i - 1); }
  }

  /** `_do_store` translates in the wrong direction: the response to UID STORE names
      the UID of the message if and only if that UID is the message number. */
  lemma StoreResponseUid(uids: seq<nat>, msgno: nat)
    requires Increasing(uids) && 1 <= msgno <= |uids|
    ensures UidToMsgno(uids, msgno) == Some(uids[msgno - 1]) <==> uids[msgno - 1] == msgno
  {
    UidAtLeastNumber(uids, msgno - 1);
    var r := UidToMsgno(uids, msgno);
    if r.Some? { UidAtLeastNumber(uids, r.value - 1); }
  }

  /** The only message has UID 5: no UID is sent at all.  In the second mailbox the
      response for message 2 bears the UID 1, which no message has. */
  lemma WrongUidIsSent()
    ensures Increasing([5]) && UidToMsgno([5], 1) == None
    ensures Increasing([2, 7]) && UidToMsgno([2, 7], 2) == Some(1)
  {
    assert [5][..0] == [];
    assert [2, 7][..1] == [2];
  }

  // ----- EXPUNGE -----

  /** The messages that stay. */
  function Kept(box: seq<Message>): seq<Message> {
    if box == [] then []
    else Kept(box[..|box| - 1]) + (if Deleted in box[|box| - 1].flags then [] else [box[|box| - 1]])
  }

  /** The numbers reported for the first `n` messages. */
  function Reported(box: seq<Message>): seq<nat> {
    if box == [] then []
    else
      var front := box[..|box| - 1];
      Reported(front) + (if Deleted in box[|box| - 1].flags then [|Kept(front)| + 1] else [])
  }

  /** What a client does with a report: that message is gone, the later ones move
      up by one. */
  function Drop<T>(view: seq<T>, n: nat): seq<T>
    requires 1 <= n <= |view|
  {
    view[..n - 1] + view[n..]
  }

  function DropAll<T>(view: seq<T>, ns: seq<nat>): Option<seq<T>> {
    if ns == [] then Some(view)
    else if 1 <= ns[0] <= |view| then DropAll(Drop(view, ns[0]), ns[1..])
    else None
  }

  /** Deleting in the mailbox, with the events the observer turns into reports. */
  method Expunge(box: seq<Message>) returns (left: seq<Message>, reports: seq<nat>)
    ensures left == Kept(box) && reports == Reported(box)
  {
    left, reports := [], [];
    var i, expcount := 0, 0;
    while i < |box|
      invariant 0 <= i <= |box| && expcount == i - |left|
      invariant left == Kept(box[..i]) && reports == Reported(box[..i])
    {
      assert box[..i + 1][..i] == box[..i];
      if Deleted in box[i].flags {
        reports := reports + [(i + 1) - expcount];
        expcount := expcount + 1;
      } else {
        left := left + [box[i]];
      }
      i := i + 1;
    }
    assert box[..i] == box;
  }

  lemma {:induction false} DropAllSnoc<T>(view: seq<T>, ns: seq<nat>, n: nat)
    requires DropAll(view, ns).Some? && 1 <= n <= |DropAll(view, ns).value|
    ensures DropAll(view, ns + [n]) == Some(Drop(DropAll(view, ns).value, n))
    decreases |ns|
  {
    if ns == [] {
      assert [] + [n] == [n] && [n][1..] == [];
    } else {
      assert (ns + [n])[0] == ns[0] && (ns + [n])[1..] == ns[1..] + [n];
      DropAllSnoc(Drop(view, ns[0]), ns[1..], n);
    }
  }

  /** A client that follows the reports ends up with the mailbox: for every mailbox,
      and with later messages it already knows of. */
  lemma {:induction false} ReportsRenumber(box: seq<Message>, more: seq<Message>)
    ensures DropAll(box + more, Reported(box)) == Some(Kept(box) + more)
    decreases |box|
  {
    if box == [] {
    } else {
      var front, last := box[..|box| - 1], box[|box| - 1];
      assert box + more == front + ([last] + more);
      ReportsRenumber(front, [last] + more);
      var view := Kept(front) + ([last] + more);
      if Deleted in last.flags {
        var n := |Kept(front)| + 1;
        DropAllSnoc(box + more, Reported(front), n);
        assert Drop(view, n) == Kept(front) + more;
        EmptyConcat(Kept(front));
      } else {
        EmptyConcat(Reported(front));
        assert view == Kept(front) + [last] + more;
      }
    }
  }

  lemma ExpungeIsFollowed(box: seq<Message>)
    ensures DropAll(box, Reported(box)) == Some(Kept(box))
  {
    ReportsRenumber(box, []);
    EmptyConcat(box);
    EmptyConcat(Kept(box));
  }
}
