/** The per-device request lists and the critical sections that update them.

    Every section of request_list.cpp touches one request. It is specified on the View of
    that request (its context and its membership of the two lists) and lifted to the device;
    class Device holds the lists and contexts themselves and runs the sections in place. */
module RequestList {
  import opened NtStatus
  import opened Wrappers

  type RequestId = nat

  /** request_ctx without the list links, which are the membership of the two lists. */
  datatype RequestCtx = RequestCtx(
    seqnum: nat,
    completionStatus: Status,
    cancelable: bool,
    sendCompletionPending: bool,
    responseInProgress: bool,
    terminal: bool)

  const FRESH_CTX := RequestCtx(0, STATUS_PENDING, false, false, false, false)

  datatype DeviceState = DeviceState(
    contexts: map<RequestId, RequestCtx>,
    requests: seq<RequestId>,     // waiting for RET_SUBMIT
    completions: seq<RequestId>)  // waiting for the completion DPC

  datatype View = View(ctx: RequestCtx, listed: bool, queued: bool)

  function ViewOf(d: DeviceState, r: RequestId): View {
    View(if r in d.contexts then d.contexts[r] else FRESH_CTX, r in d.requests, r in d.completions)
  }

  /** RemoveEntryList for the node of r: drops one occurrence. */
  function Unlink(list: seq<RequestId>, r: RequestId): seq<RequestId> {
    if list == [] then []
    else if list[0] == r then list[1..]
    else [list[0]] + Unlink(list[1..], r)
  }

  function Place(list: seq<RequestId>, r: RequestId, present: bool): seq<RequestId> {
    if !present then Unlink(list, r) else if r in list then list else list + [r]
  }

  /** The device after the view of one request has been changed to v. */
  function Lift(d: DeviceState, r: RequestId, v: View): DeviceState {
    DeviceState(d.contexts[r := v.ctx], Place(d.requests, r, v.listed), Place(d.completions, r, v.queued))
  }

  ghost predicate NoDuplicates(list: seq<RequestId>) {
    forall i, j | 0 <= i < j < |list| :: list[i] != list[j]
  }

  lemma {:induction false} UnlinkMembers(list: seq<RequestId>, r: RequestId)
    requires NoDuplicates(list)
    ensures NoDuplicates(Unlink(list, r))
    ensures forall x :: x in Unlink(list, r) <==> x in list && x != r
  {
    if list != [] {
      assert list == [list[0]] + list[1..];
      if list[0] == r {
        assert r !in list[1..];
      } else {
        UnlinkMembers(list[1..], r);
        assert list[0] !in list[1..];
      }
    }
  }

  lemma {:induction false} UnlinkAt(list: seq<RequestId>, i: nat)
    requires i < |list| && list[i] !in list[..i]
    ensures Unlink(list, list[i]) == list[..i] + list[i + 1..]
  {
    if i > 0 {
      assert list[0] in list[..i];
      var tail := list[1..];
      assert tail[..i - 1] == list[1..i];
      UnlinkAt(tail, i - 1);
      assert [list[0]] + (tail[..i - 1] + tail[i..]) == list[..i] + list[i + 1..];
    }
  }

  lemma {:induction false} UnlinkAbsent(list: seq<RequestId>, r: RequestId)
    requires r !in list
    ensures Unlink(list, r) == list
  {
    if list != [] {
      UnlinkAbsent(list[1..], r);
    }
  }

  /** Lifting a view changes exactly that request, for every other request nothing. */
  lemma LiftViews(d: DeviceState, r: RequestId, v: View)
    requires NoDuplicates(d.requests) && NoDuplicates(d.completions)
    ensures ViewOf(Lift(d, r, v), r) == v
    ensures forall x | x != r :: ViewOf(Lift(d, r, v), x) == ViewOf(d, x)
    ensures NoDuplicates(Lift(d, r, v).requests) && NoDuplicates(Lift(d, r, v).completions)
  {
    UnlinkMembers(d.requests, r);
    UnlinkMembers(d.completions, r);
  }

  // ----- the sections, on the view of one request -----

  predicate Completable(v: View) {
    v.ctx.terminal && !v.ctx.cancelable && !v.ctx.sendCompletionPending && !v.ctx.responseInProgress && !v.listed
  }

  /** add_to_completion_queue_locked */
  function Settle(v: View): View {
    if Completable(v) then v.(queued := true) else v
  }

  function SendCompleteView(v: View, seqnum: nat, sendStatus: Status, mark: Status): (View, Status) {
    if v.ctx.seqnum != seqnum || !v.ctx.sendCompletionPending then
      (v, STATUS_INVALID_DEVICE_STATE)
    else
      var sent := v.(ctx := v.ctx.(sendCompletionPending := false));
      var claimed := v.ctx.terminal || v.ctx.responseInProgress;
      if NtError(sendStatus) then
        var ctx := if claimed then sent.ctx else sent.ctx.(completionStatus := sendStatus, terminal := true);
        (Settle(View(ctx, false, v.queued)), STATUS_SUCCESS)
      else if claimed then
        (Settle(sent), STATUS_SUCCESS)
      else if !v.listed then
        (Settle(sent), STATUS_INVALID_DEVICE_STATE)
      else if NtError(mark) then
        (Settle(sent.(listed := false)), mark)
      else
        (Settle(sent.(ctx := sent.ctx.(cancelable := true))), STATUS_SUCCESS)
  }

  /** The section of find_sent_request once the request with the number is found; the flag says
      whether the caller becomes the owner of the response. */
  function TakeResponse(v: View, unmark: Status): (View, bool) {
    var lost := v.ctx.cancelable && unmark == STATUS_CANCELLED;
    var ctx := v.ctx.(cancelable := false, responseInProgress := v.ctx.responseInProgress || !lost);
    (View(ctx, false, v.queued), !lost)
  }

  function CancelView(v: View): View {
    View(v.ctx.(cancelable := false), false, v.queued)
  }

  function EnqueueView(v: View, status: Status): View {
    var ctx := v.ctx.(responseInProgress := false);
    Settle(v.(ctx := if ctx.terminal then ctx else ctx.(completionStatus := status, terminal := true)))
  }

  function PrepareView(v: View, seqnum: nat): View {
    v.(ctx := v.ctx.(seqnum := seqnum, sendCompletionPending := true))
  }

  // ----- what the sections come to -----

  /** The request joins the queue exactly if it is terminal and nobody holds on to it; it never leaves it here, and
      nothing else about it changes. */
  lemma SettlingExactly(v: View)
    ensures var n := Settle(v);
            && n.ctx == v.ctx && n.listed == v.listed
            && (n.queued <==>
                v.queued || (v.ctx.terminal && !v.ctx.cancelable && !v.ctx.sendCompletionPending &&
                             !v.ctx.responseInProgress && !v.listed))
  {
  }

  /** The status of the first who completes a request stays; the response is over in either case. */
  lemma EnqueueingExactly(v: View, status: Status)
    ensures var n := EnqueueView(v, status);
            && n.ctx.terminal && !n.ctx.responseInProgress && n.listed == v.listed
            && n.ctx.completionStatus == (if v.ctx.terminal then v.ctx.completionStatus else status)
            && n.ctx.seqnum == v.ctx.seqnum && n.ctx.cancelable == v.ctx.cancelable
            && n.ctx.sendCompletionPending == v.ctx.sendCompletionPending
            && (n.queued <==>
                v.queued || (!v.ctx.cancelable && !v.ctx.sendCompletionPending && !v.listed))
  {
  }

  /** A response that finds a request unlists it and takes its cancelability away; it becomes the owner unless the
      cancellation was granted first. */
  lemma TakingExactly(v: View, unmark: Status)
    ensures var (n, owner) := TakeResponse(v, unmark);
            && !n.listed && n.queued == v.queued && !n.ctx.cancelable
            && (owner <==> !(v.ctx.cancelable && unmark == 0xC000_0120))
            && n.ctx == v.ctx.(cancelable := false, responseInProgress := v.ctx.responseInProgress || owner)
  {
  }

  /** A send completion that belongs to another number, or is not awaited, changes nothing. Otherwise the send is
      over; a failed send unlists the request and completes it with that status unless somebody was there before; a
      successful one makes it cancelable if nobody was there before, it is listed and the mark is not refused. */
  lemma SendCompletionExactly(v: View, seqnum: nat, sendStatus: Status, mark: Status)
    ensures var (n, st) := SendCompleteView(v, seqnum, sendStatus, mark);
            var awaited := v.ctx.seqnum == seqnum && v.ctx.sendCompletionPending;
            var claimed := v.ctx.terminal || v.ctx.responseInProgress;
            if !awaited then n == v && st == STATUS_INVALID_DEVICE_STATE
            else
              && !n.ctx.sendCompletionPending && n.ctx.seqnum == seqnum
              && n.ctx.responseInProgress == v.ctx.responseInProgress
              && n.ctx.terminal == (v.ctx.terminal || (sendStatus >= 0xC000_0000 && !claimed))
              && n.ctx.completionStatus ==
                 (if sendStatus >= 0xC000_0000 && !claimed then sendStatus else v.ctx.completionStatus)
              && n.ctx.cancelable ==
                 (v.ctx.cancelable || (sendStatus < 0xC000_0000 && !claimed && v.listed && mark < 0xC000_0000))
              && n.listed ==
                 (v.listed && sendStatus < 0xC000_0000 && (claimed || mark < 0xC000_0000))
              && (n.queued <==>
                  v.queued || (n.ctx.terminal && !n.ctx.cancelable && !n.ctx.responseInProgress && !n.listed))
              && st == if sendStatus >= 0xC000_0000 || claimed then STATUS_SUCCESS
                       else if !v.listed then STATUS_INVALID_DEVICE_STATE
                       else if mark >= 0xC000_0000 then mark else STATUS_SUCCESS
  {
  }

  function FirstWithSeqnum(d: DeviceState, seqnum: nat): (r: Option<RequestId>)
    requires forall x | x in d.requests :: x in d.contexts
    ensures r.Some? ==> r.value in d.requests && d.contexts[r.value].seqnum == seqnum
    ensures r.None? ==> forall x | x in d.requests :: d.contexts[x].seqnum != seqnum
  {
    FirstFrom(d, seqnum, 0)
  }

  function FirstFrom(d: DeviceState, seqnum: nat, i: nat): (r: Option<RequestId>)
    requires i <= |d.requests|
    requires forall x | x in d.requests :: x in d.contexts
    ensures r.Some? ==> r.value in d.requests && d.contexts[r.value].seqnum == seqnum
    ensures r.None? ==> forall j | i <= j < |d.requests| :: d.contexts[d.requests[j]].seqnum != seqnum
    decreases |d.requests| - i
  {
    if i == |d.requests| then None
    else if d.contexts[d.requests[i]].seqnum == seqnum then Some(d.requests[i])
    else FirstFrom(d, seqnum, i + 1)
  }

  /** NT_ASSERTs of check_request_locked; entry links are list membership. */
  predicate Checked(v: View) {
    && (v.ctx.cancelable ==> v.listed && !v.ctx.sendCompletionPending)
    && (v.ctx.responseInProgress ==> !v.listed && !v.ctx.cancelable)
    && (v.ctx.terminal ==> !v.listed && !v.ctx.cancelable && !v.ctx.responseInProgress)
    && (v.queued ==> v.ctx.terminal && !v.ctx.sendCompletionPending && !v.ctx.responseInProgress)
  }

  class Device {
    var contexts: map<RequestId, RequestCtx>
    var requests: seq<RequestId>
    var completions: seq<RequestId>

    constructor ()
      ensures State() == DeviceState(map[], [], [])
    {
      contexts, requests, completions := map[], [], [];
    }

    ghost function State(): DeviceState
      reads this
    {
      DeviceState(contexts, requests, completions)
    }

    ghost predicate Linked()
      reads this
    {
      && NoDuplicates(requests) && NoDuplicates(completions)
      && (forall x | x in requests :: x in contexts)
      && (forall x | x in completions :: x in contexts)
    }

    /** The context is allocated on first use and overwritten on reuse; the lists stay. */
    method InitRequestCtx(r: RequestId)
      requires Linked() && r !in requests && r !in completions
      modifies this
      ensures Linked()
      ensures State() == Lift(old(State()), r, View(FRESH_CTX, false, false))
      ensures requests == old(requests) && completions == old(completions)
      ensures contexts == old(contexts)[r := RequestCtx(0, STATUS_PENDING, false, false, false, false)]
    {
      UnlinkAbsent(requests, r);
      UnlinkAbsent(completions, r);
      contexts := contexts[r := FRESH_CTX];
    }

    /** The unlocked first half of add_request_to_sent_list. */
    method PrepareSend(r: RequestId, seqnum: nat)
      requires Linked() && r in contexts
      modifies this
      ensures Linked()
      ensures State() == Lift(old(State()), r, PrepareView(ViewOf(old(State()), r), seqnum))
      ensures requests == old(requests) && completions == old(completions)
      ensures contexts[r] == old(contexts)[r].(seqnum := seqnum, sendCompletionPending := true)
    {
      UnlinkAbsentUnless(requests, r);
      UnlinkAbsentUnless(completions, r);
      contexts := contexts[r := contexts[r].(seqnum := seqnum, sendCompletionPending := true)];
    }

    /** The locked second half. */
    method InsertSent(r: RequestId)
      requires Linked() && r in contexts && r !in requests
      modifies this
      ensures Linked()
      ensures State() == Lift(old(State()), r, ViewOf(old(State()), r).(listed := true))
      ensures requests == old(requests) + [r] && completions == old(completions) && contexts == old(contexts)
    {
      UnlinkAbsentUnless(completions, r);
      requests := requests + [r];
      assert contexts == contexts[r := contexts[r]];
    }

    method AddToCompletionQueueLocked(r: RequestId) returns (enqueueDpc: bool)
      requires Linked() && r in contexts
      modifies this`completions
      ensures Linked()
      ensures State() == Lift(old(State()), r, Settle(ViewOf(old(State()), r)))
      ensures completions == old(completions) || (r !in old(completions) && completions == old(completions) + [r])
      ensures enqueueDpc <==> old(completions) == [] && completions != []
    {
      var req := contexts[r];
      UnlinkAbsentUnless(requests, r);
      UnlinkAbsentUnless(completions, r);
      assert contexts == contexts[r := contexts[r]];
      if !req.terminal || req.cancelable || req.sendCompletionPending || req.responseInProgress ||
         r in requests || r in completions {
        return false;
      }
      var wasEmpty := completions == [];
      completions := completions + [r];
      return wasEmpty;
    }

    method RemoveFromSentListLocked(r: RequestId)
      requires Linked()
      modifies this`requests
      ensures Linked() && requests == Unlink(old(requests), r)
    {
      UnlinkMembers(requests, r);
      if r in requests {
        requests := Unlink(requests, r);
      } else {
        UnlinkAbsent(requests, r);
      }
    }

    method OnSendComplete(r: RequestId, seqnum: nat, sendStatus: Status, mark: Status)
      returns (markStatus: Status, enqueueDpc: bool)
      requires Linked() && r in contexts
      modifies this
      ensures Linked()
      ensures (State(), markStatus) ==
              (var (v, st) := SendCompleteView(ViewOf(old(State()), r), seqnum, sendStatus, mark);
               (Lift(old(State()), r, v), st))
      ensures enqueueDpc <==> old(completions) == [] && completions != []
    {
      hide Unlink;
      UnlinkAbsentUnless(requests, r);
      UnlinkAbsentUnless(completions, r);
      markStatus, enqueueDpc := STATUS_SUCCESS, false;
      var req := contexts[r];
      assert contexts == contexts[r := req];
      if req.seqnum != seqnum || !req.sendCompletionPending {
        return STATUS_INVALID_DEVICE_STATE, false;
      }
      contexts := contexts[r := req.(sendCompletionPending := false)];
      if NtError(sendStatus) {
        RemoveFromSentListLocked(r);
        if !(req.terminal || req.responseInProgress) {
          contexts := contexts[r := contexts[r].(completionStatus := sendStatus, terminal := true)];
        }
      } else if req.terminal || req.responseInProgress {
      } else if r !in requests {
        markStatus := STATUS_INVALID_DEVICE_STATE;
      } else if NtError(mark) {
        markStatus := mark;
        RemoveFromSentListLocked(r);
      } else {
        contexts := contexts[r := contexts[r].(cancelable := true)];
      }
      UnlinkMembers(old(requests), r);
      UnlinkAbsentUnless(requests, r);
      enqueueDpc := AddToCompletionQueueLocked(r);
      assert contexts == old(contexts)[r := contexts[r]];
    }

    /** The list walk of find_sent_request, with the result of WdfRequestUnmarkCancelable. */
    method FindSentRequest(seqnum: nat, unmark: Status) returns (request: Option<RequestId>)
      requires Linked()
      modifies this
      ensures Linked()
      ensures match FirstWithSeqnum(old(State()), seqnum)
              case None => request == None && State() == old(State())
              case Some(r) =>
                var (v, owner) := TakeResponse(ViewOf(old(State()), r), unmark);
                State() == Lift(old(State()), r, v) && request == (if owner then Some(r) else None)
      ensures var found := FirstWithSeqnum(old(State()), seqnum);
              found.Some? ==>
                && found.value in old(requests) && old(contexts)[found.value].seqnum == seqnum
                && found.value !in requests && requests == Unlink(old(requests), found.value)
                && !contexts[found.value].cancelable
    {
      var i := 0;
      request := None;
      while i < |requests|
        invariant i <= |requests|
        invariant State() == old(State()) && request == None
        invariant FirstFrom(State(), seqnum, 0) == FirstFrom(State(), seqnum, i)
        invariant forall j | 0 <= j < i :: contexts[requests[j]].seqnum != seqnum
      {
        var r := requests[i];
        var req := contexts[r];
        if req.seqnum == seqnum {
          UnlinkAt(requests, i);
          UnlinkMembers(requests, r);
          UnlinkAbsentUnless(completions, r);
          requests := requests[..i] + requests[i + 1..];
          request := Some(r);
          if req.cancelable {
            contexts := contexts[r := contexts[r].(cancelable := false)];
            if unmark == STATUS_CANCELLED {
              request := None;
            }
          }
          if request.Some? {
            contexts := contexts[r := contexts[r].(responseInProgress := true)];
          }
          assert contexts == old(contexts)[r := contexts[r]];
          return;
        }
        i := i + 1;
      }
    }

    /** The section of the cancel callback. */
    method Cancel(r: RequestId)
      requires Linked() && r in contexts
      modifies this
      ensures Linked()
      ensures State() == Lift(old(State()), r, CancelView(ViewOf(old(State()), r)))
      ensures r !in requests && requests == Unlink(old(requests), r) && completions == old(completions)
      ensures contexts == old(contexts)[r := old(contexts)[r].(cancelable := false)]
    {
      UnlinkMembers(requests, r);
      UnlinkAbsentUnless(completions, r);
      RemoveFromSentListLocked(r);
      contexts := contexts[r := contexts[r].(cancelable := false)];
    }

    method EnqueueForCompletion(r: RequestId, status: Status) returns (enqueueDpc: bool)
      requires Linked() && r in contexts
      modifies this
      ensures Linked()
      ensures State() == Lift(old(State()), r, EnqueueView(ViewOf(old(State()), r), status))
      ensures enqueueDpc <==> old(completions) == [] && completions != []
    {
      UnlinkAbsentUnless(requests, r);
      UnlinkAbsentUnless(completions, r);
      if contexts[r].responseInProgress {
        contexts := contexts[r := contexts[r].(responseInProgress := false)];
      }
      if !contexts[r].terminal {
        contexts := contexts[r := contexts[r].(completionStatus := status, terminal := true)];
      }
      enqueueDpc := AddToCompletionQueueLocked(r);
      assert contexts == old(contexts)[r := contexts[r]];
    }

    /** One turn of the DPC loop under the lock: the head of the queue and its status, or the end. */
    method TakeCompletion() returns (next: Option<(RequestId, Status)>)
      requires Linked()
      modifies this`completions
      ensures Linked()
      ensures old(completions) == [] ==> next == None && completions == []
      ensures old(completions) != [] ==>
                var r := old(completions)[0];
                && next == Some((r, contexts[r].completionStatus))
                && State() == Lift(old(State()), r, ViewOf(old(State()), r).(queued := false))
    {
      if completions == [] {
        return None;
      }
      var r := completions[0];
      UnlinkAbsentUnless(requests, r);
      assert contexts == contexts[r := contexts[r]];
      completions := completions[1..];
      return Some((r, contexts[r].completionStatus));
    }

    /** request_completion_dpc left alone: it completes the whole queue in order. */
    method RequestCompletionDpc() returns (completed: seq<(RequestId, Status)>)
      requires Linked()
      modifies this`completions
      ensures Linked() && completions == []
      ensures |completed| == |old(completions)|
      ensures forall i | 0 <= i < |completed| ::
                completed[i] == (old(completions)[i], contexts[old(completions)[i]].completionStatus)
    {
      completed := [];
      while true
        invariant Linked() && |completed| + |completions| == |old(completions)|
        invariant completions == old(completions)[|completed|..]
        invariant forall i | 0 <= i < |completed| ::
            completed[i] == (old(completions)[i], contexts[old(completions)[i]].completionStatus)
        decreases |completions|
      {
        ghost var before := completions;
        var next := TakeCompletion();
        if next.None? {
          break;
        }
        assert completions == before[1..] by { UnlinkAt(before, 0); }
        completed := completed + [next.value];
      }
    }
  }

  lemma UnlinkAbsentUnless(list: seq<RequestId>, r: RequestId)
    ensures r !in list ==> Unlink(list, r) == list
  {
    if r !in list {
      UnlinkAbsent(list, r);
    }
  }
}
