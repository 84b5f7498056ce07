/**
  Whole runs of the observer behind the proxy. A complete inventory is the union of the
  pages of one discovery: it started without a cursor, followed each cursor once, counted
  the first reply to each of its requests, and no change was announced since it began.
*/
module ContractRuns {
  import opened Wrappers
  import opened ContractObserver

  function Start(): Session { Session(Cleared(Missing), map[], {}) }

  function After(events: seq<Event>): Session {
    if events == [] then Start() else Step(After(events[..|events| - 1]), events[|events| - 1])
  }

  /** The request at `i` was passed on to the server. */
  predicate Sent(events: seq<Event>, i: nat)
    requires i < |events|
  {
    Forwards(After(events[..i]), events[i])
  }

  predicate RepliesTo(events: seq<Event>, i: nat, id: Id)
    requires i < |events|
  {
    events[i].Reply? && events[i].id == id
  }

  /** No reply with this id between `from` and `to`. */
  ghost predicate Silent(events: seq<Event>, id: Id, from: nat, to: nat)
    requires to <= |events|
  {
    forall i: nat :: from < i < to ==> !RepliesTo(events, i, id)
  }

  /** When the request at `i` was sent, no earlier request had the same id and was unanswered. */
  ghost predicate FreshId(events: seq<Event>, i: nat)
    requires i < |events|
  {
    IsRequest(events[i]) &&
    forall j: nat :: j < i && IsRequest(events[j]) && events[j].id == events[i].id && Sent(events, j) ==>
      !Silent(events, events[i].id, j, i)
  }

  /** One discovery: where its requests were sent and where they were answered. */
  datatype Discovery = Discovery(sent: seq<nat>, answered: seq<nat>)

  function PageAt(events: seq<Event>, i: nat): Answer
    requires i < |events|
  {
    if events[i].Reply? then events[i].answer else Failure
  }

  /** The cursor that the request after `n` pages must carry. */
  function CursorAfter(events: seq<Event>, answered: seq<nat>, n: nat): CursorArg
    requires n <= |answered| && forall k :: 0 <= k < |answered| ==> answered[k] < |events|
  {
    if n == 0 then NoCursor
    else match PageAt(events, answered[n - 1]) case Page(_, Next(c)) => Cursor(c) case _ => NotText
  }

  ghost predicate Placed(events: seq<Event>, d: Discovery) {
    0 < |d.sent| && |d.answered| <= |d.sent| <= |d.answered| + 1 &&
    (forall k :: 0 <= k < |d.sent| ==> d.sent[k] < |events|) &&
      (forall k :: 0 <= k < |d.answered| ==> d.answered[k] < |events|)
  }

  /** The request for page `k` was sent after page `k - 1`, with its cursor, under an id nobody else was using. */
  ghost predicate RequestOk(events: seq<Event>, d: Discovery, k: nat)
    requires Placed(events, d) && k < |d.sent|
  {
    Sent(events, d.sent[k]) && events[d.sent[k]].Listing? && FreshId(events, d.sent[k]) &&
    events[d.sent[k]].cursor == CursorAfter(events, d.answered, k) && (k > 0 ==> d.answered[k - 1] < d.sent[k])
  }

  /** Page `k` is the first reply to its request. */
  ghost predicate AnswerOk(events: seq<Event>, d: Discovery, k: nat)
    requires Placed(events, d) && k < |d.answered|
  {
    d.sent[k] < d.answered[k] && events[d.sent[k]].Listing? && RepliesTo(events, d.answered[k], events[d.sent[k]].id) &&
    Silent(events, events[d.sent[k]].id, d.sent[k], d.answered[k]) && PageAt(events, d.answered[k]).Page?
  }

  ghost predicate Undisturbed(events: seq<Event>, from: nat) {
    forall i: nat :: from < i < |events| ==> !events[i].ListChanged?
  }

  /** No cursor is followed twice. */
  ghost predicate DistinctCursors(events: seq<Event>, d: Discovery)
    requires Placed(events, d)
  {
    forall j, k :: 1 <= j < k < |d.sent| && events[d.sent[j]].Listing? && events[d.sent[k]].Listing? ==>
      events[d.sent[j]].cursor != events[d.sent[k]].cursor
  }

  ghost predicate IsDiscovery(events: seq<Event>, d: Discovery) {
    Placed(events, d) && DistinctCursors(events, d) && (forall k: nat :: k < |d.sent| ==> RequestOk(events, d, k)) &&
    (forall k: nat :: k < |d.answered| ==> AnswerOk(events, d, k)) && Undisturbed(events, d.sent[0])
  }

  /** The tools of the pages so far, each name once. */
  function Collected(events: seq<Event>, answered: seq<nat>): Option<map<string, string>>
    requires forall k :: 0 <= k < |answered| ==> answered[k] < |events|
  {
    if answered == [] then Some(map[])
    else
      match (Collected(events, answered[..|answered| - 1]), PageAt(events, answered[|answered| - 1]))
      case (Some(before), Page(tools, _)) => AddTools(before, tools)
      case _ => None
  }

  /** The cursors followed so far. */
  function Followed(events: seq<Event>, d: Discovery): set<string>
    requires Placed(events, d)
  {
    set k | 1 <= k < |d.sent| && events[d.sent[k]].Listing? &&
      events[d.sent[k]].cursor.Cursor? :: events[d.sent[k]].cursor.text
  }

  // ----- the invariant ------------------------------------------------------------------------

  /** Requests that were sent and not answered keep their ids reserved. */
  ghost predicate AllReserved(events: seq<Event>) {
    forall i: nat :: i < |events| && IsRequest(events[i]) && Sent(events, i) &&
                     Silent(events, events[i].id, i, |events|) ==>
      Reserved(After(events), events[i].id)
  }

  /** What the observer holds is what the discovery has brought so far. */
  ghost predicate Holds(events: seq<Event>, o: Observer, d: Discovery)
    requires Placed(events, d)
  {
    Followed(events, d) == o.seen && |o.seen| <= MAX_CONTRACT_TOOLS &&
    Collected(events, d.answered) == Some(if o.status.Complete? then o.live else o.building)
  }

  /** Where the discovery stands: a request in flight, a cursor to follow, or done. */
  ghost predicate Stands(events: seq<Event>, o: Observer, other: map<Id, bool>, d: Discovery)
    requires Placed(events, d)
  {
    if o.request.Some? then
      var last := d.sent[|d.sent| - 1];
      |d.sent| == |d.answered| + 1 && !o.status.Complete? && o.live == map[] && events[last].Listing? &&
      events[last].id == o.request.value && Silent(events, o.request.value, last, |events|) &&
      o.request.value in other && other[o.request.value]
    else
      |d.sent| == |d.answered| && d.answered != [] &&
      match PageAt(events, d.answered[|d.answered| - 1])
      case Page(_, NoNext) => o.status.Complete? && o.cursor == None && o.building == map[]
      case Page(_, Next(c)) => !o.status.Complete? && o.cursor == Some(c) && o.live == map[]
      case _ => false
  }

  ghost predicate Tracks(events: seq<Event>, o: Observer, other: map<Id, bool>, d: Discovery) {
    IsDiscovery(events, d) && Holds(events, o, d) && Stands(events, o, other, d)
  }

  ghost predicate Idle(o: Observer) { o == Cleared(o.status) && !o.status.Complete? }

  ghost predicate Invariant(events: seq<Event>, d: Option<Discovery>) {
    var s := After(events);
    if d.Some? then Tracks(events, s.observer, s.other, d.value) else Idle(s.observer)
  }

  // ----- growing a run ------------------------------------------------------------------------

  lemma AfterMore(events: seq<Event>, e: Event)
    ensures After(events + [e]) == Step(After(events), e)
  {
    hide Step;
    assert (events + [e])[..|events|] == events;
  }

  lemma SentStays(events: seq<Event>, e: Event, i: nat)
    requires i < |events|
    ensures (events + [e])[i] == events[i] && Sent(events + [e], i) == Sent(events, i)
  {
    hide Forwards, After;
    assert (events + [e])[..i] == events[..i];
  }

  lemma SentNow(events: seq<Event>, e: Event)
    ensures (events + [e])[|events|] == e && Sent(events + [e], |events|) == Forwards(After(events), e)
  {
    hide Forwards, After;
    assert (events + [e])[..|events|] == events;
  }

  lemma SilentStays(events: seq<Event>, e: Event, id: Id, from: nat, to: nat)
    requires to <= |events|
    ensures Silent(events + [e], id, from, to) <==> Silent(events, id, from, to)
    ensures !(e.Reply? && e.id == id) && Silent(events, id, from, |events|) ==>
            Silent(events + [e], id, from, |events| + 1)
    ensures Silent(events + [e], id, from, |events| + 1) && from < |events| ==>
            Silent(events, id, from, |events|) && !(e.Reply? && e.id == id)
  {
    var all := events + [e];
    assert forall i: nat :: i < |events| ==> RepliesTo(all, i, id) == RepliesTo(events, i, id);
    assert all[|events|] == e;
    if Silent(all, id, from, |events| + 1) && from < |events| { assert !RepliesTo(all, |events|, id); }
  }

  lemma FreshStays(events: seq<Event>, e: Event, i: nat)
    requires i < |events| && FreshId(events, i)
    ensures FreshId(events + [e], i)
  {
    hide Silent, Sent;
    var all := events + [e];
    forall j: nat | j < i && IsRequest(all[j]) && all[j].id == all[i].id &&
      Sent(all, j) ensures !Silent(all, all[i].id, j, i) {
      SentStays(events, e, j);
      SilentStays(events, e, events[i].id, j, i);
    }
  }

  lemma RequestStays(events: seq<Event>, e: Event, d: Discovery, k: nat)
    requires Placed(events, d) && k < |d.sent| && RequestOk(events, d, k)
    ensures RequestOk(events + [e], d, k)
  {
    hide FreshId, Sent;
    SentStays(events, e, d.sent[k]);
    FreshStays(events, e, d.sent[k]);
  }

  lemma AnswerStays(events: seq<Event>, e: Event, d: Discovery, k: nat)
    requires Placed(events, d) && k < |d.answered| && AnswerOk(events, d, k)
    ensures AnswerOk(events + [e], d, k)
  {
    hide Silent;
    SilentStays(events, e, events[d.sent[k]].id, d.sent[k], d.answered[k]);
  }

  lemma DiscoveryStays(events: seq<Event>, e: Event, d: Discovery)
    requires IsDiscovery(events, d) && !e.ListChanged?
    ensures IsDiscovery(events + [e], d)
  {
    hide RequestOk, AnswerOk;
    forall k: nat | k < |d.sent| ensures RequestOk(events + [e], d, k) { RequestStays(events, e, d, k); }
    forall k: nat | k < |d.answered| ensures AnswerOk(events + [e], d, k) { AnswerStays(events, e, d, k); }
  }

  lemma {:induction false} CollectedStays(events: seq<Event>, e: Event, answered: seq<nat>)
    requires forall k :: 0 <= k < |answered| ==> answered[k] < |events|
    ensures Collected(events + [e], answered) == Collected(events, answered)
    decreases |answered|
  {
    hide AddTools;
    if answered != [] { CollectedStays(events, e, answered[..|answered| - 1]); }
  }

  lemma FollowedStays(events: seq<Event>, e: Event, d: Discovery)
    requires Placed(events, d)
    ensures Followed(events + [e], d) == Followed(events, d)
  {
    var all := events + [e];
    forall c | c in Followed(events, d) ensures c in Followed(all, d) {
      var k :| 1 <= k < |d.sent| && events[d.sent[k]].Listing? && events[d.sent[k]].cursor.Cursor? &&
        events[d.sent[k]].cursor.text == c;
      assert all[d.sent[k]] == events[d.sent[k]];
    }
    forall c | c in Followed(all, d) ensures c in Followed(events, d) {
      var k :| 1 <= k < |d.sent| && all[d.sent[k]].Listing? && all[d.sent[k]].cursor.Cursor? &&
        all[d.sent[k]].cursor.text == c;
      assert all[d.sent[k]] == events[d.sent[k]];
    }
  }

  /** An event that leaves the observer alone, and the request in flight reserved. */
  lemma TracksStays(events: seq<Event>, e: Event, o: Observer, other: map<Id, bool>, after: map<Id, bool>, d: Discovery)
    requires Tracks(events, o, other, d) && !e.ListChanged?
    requires o.request.Some? ==> !(e.Reply? && e.id == o.request.value) && o.request.value in after &&
                                 after[o.request.value]
    ensures Tracks(events + [e], o, after, d)
  {
    DiscoveryStays(events, e, d);
    CollectedStays(events, e, d.answered);
    FollowedStays(events, e, d);
    hide IsDiscovery, Followed, Collected, Silent;
    if o.request.Some? {
      SilentStays(events, e, o.request.value, d.sent[|d.sent| - 1], |events|);
    }
  }

  // ----- one step -----------------------------------------------------------------------------

  lemma ReservedStep(events: seq<Event>, e: Event)
    requires AllReserved(events)
    ensures AllReserved(events + [e])
  {
    var all := events + [e];
    AfterMore(events, e);
    forall i: nat | i < |all| && IsRequest(all[i]) && Sent(all, i) && Silent(all, all[i].id, i, |all|)
      ensures Reserved(After(all), all[i].id)
    {
      if i < |events| {
        SentStays(events, e, i);
        SilentStays(events, e, events[i].id, i, |events|);
        assert Reserved(After(events), events[i].id);
        hide Sent, Silent, After;
        StepReserves(After(events), e, events[i].id);
      } else {
        SentNow(events, e);
        hide Sent, Silent, After;
        ForwardedIsReserved(After(events), e);
      }
    }
  }

  lemma StepReserves(s: Session, e: Event, id: Id)
    requires Reserved(s, id) && !(e.Reply? && e.id == id)
    ensures Reserved(Step(s, e), id)
  {
    hide Requested, Responded;
  }

  lemma ForwardedIsReserved(s: Session, e: Event)
    requires IsRequest(e) && Forwards(s, e)
    ensures Reserved(Step(s, e), e.id)
  {
    hide Requested;
  }

  /** A request that is passed on has an id nobody is waiting for. */
  lemma ForwardedIsFresh(events: seq<Event>, e: Event)
    requires AllReserved(events) && IsRequest(e) && Forwards(After(events), e)
    ensures FreshId(events + [e], |events|)
  {
    hide Silent, Sent, After;
    var all := events + [e];
    assert !Reserved(After(events), e.id) by { hide Requested; }
    forall j: nat | j < |events| && IsRequest(all[j]) && all[j].id == e.id &&
      Sent(all, j) ensures !Silent(all, e.id, j, |events|) {
      SentStays(events, e, j);
      SilentStays(events, e, e.id, j, |events|);
    }
  }

  lemma BeginsDiscovery(events: seq<Event>, e: Event)
    requires AllReserved(events) && e.Listing? && e.cursor.NoCursor? && Forwards(After(events), e)
    ensures IsDiscovery(events + [e], Discovery([|events|], []))
  {
    hide Sent, FreshId, After, Forwards, IsDiscovery, AllReserved, Followed, Collected, Silent;
    var all, d := events + [e], Discovery([|events|], []);
    SentNow(events, e);
    ForwardedIsFresh(events, e);
    assert d.sent[0] == |events| && all[|events|] == e;
    assert RequestOk(all, d, 0);
    hide RequestOk;
    NewDiscovery(all, d);
  }

  /** A first request starts a discovery. */
  lemma Begins(events: seq<Event>, e: Event)
    requires AllReserved(events) && e.Listing? && e.cursor.NoCursor? && Forwards(After(events), e)
    ensures var d := Discovery([|events|], []);
            Tracks(events + [e], Cleared(Unverified).(request := Some(e.id)), Step(After(events), e).other, d)
  {
    hide After, Forwards, Step, IsDiscovery, AllReserved, AddTools, Requested, Responded, Silent;
    BeginsDiscovery(events, e);
    ForwardedListing(After(events), e);
    FirstRequested(After(events).observer, e);
    NothingBetween(events + [e], e.id, |events|);
    assert Followed(events + [e], Discovery([|events|], [])) == {};
  }

  lemma FirstRequested(o: Observer, e: Event)
    requires o.request.None? && e.Listing? && e.cursor.NoCursor?
    ensures Requested(o, e.id, e.cursor).observer == Cleared(Unverified).(request := Some(e.id))
  {
  }

  lemma NewDiscovery(all: seq<Event>, d: Discovery)
    requires Placed(all, d) && |d.sent| == 1 && d.answered == [] && d.sent[0] == |all| - 1 && RequestOk(all, d, 0)
    ensures IsDiscovery(all, d)
  {
    hide RequestOk, AnswerOk;
    forall k: nat | k < |d.sent| ensures RequestOk(all, d, k) { assert k == 0; }
  }

  lemma ForwardedListing(s: Session, e: Event)
    requires e.Listing? && Forwards(s, e)
    ensures Step(s, e).other == s.other[e.id := true] &&
            Step(s, e).observer == Requested(s.observer, e.id, e.cursor).observer
    ensures s.observer.request.None? && Requested(s.observer, e.id, e.cursor).ok
  {
  }

  lemma FollowedMore(events: seq<Event>, e: Event, d: Discovery)
    requires Placed(events, d) && e.Listing? && e.cursor.Cursor? && |d.answered| == |d.sent|
    ensures Placed(events + [e], Discovery(d.sent + [|events|], d.answered))
    ensures Followed(events + [e], Discovery(d.sent + [|events|], d.answered)) == Followed(events, d) + {e.cursor.text}
  {
    var all, more := events + [e], Discovery(d.sent + [|events|], d.answered);
    FollowedStays(events, e, d);
    assert all[|events|] == e && more.sent[|d.sent|] == |events|;
    assert forall k :: 0 <= k < |d.sent| ==> more.sent[k] == d.sent[k];
    forall c | c in Followed(all, d) ensures c in Followed(all, more) {
      var k :| 1 <= k < |d.sent| && all[d.sent[k]].Listing? && all[d.sent[k]].cursor.Cursor? &&
        all[d.sent[k]].cursor.text == c;
      assert all[more.sent[k]].cursor.text == c;
    }
    assert all[more.sent[|d.sent|]].cursor.text == e.cursor.text;
  }

  lemma MoreRequests(all: seq<Event>, d: Discovery, more: Discovery)
    requires IsDiscovery(all, d) && Placed(all, more) && more.answered == d.answered && |d.sent| == |d.answered|
    requires |more.sent| == |d.sent| + 1 && more.sent[..|d.sent|] == d.sent
    requires RequestOk(all, more, |d.sent|) && all[more.sent[|d.sent|]].cursor.Cursor?
    requires all[more.sent[|d.sent|]].cursor.text !in Followed(all, d)
    ensures IsDiscovery(all, more)
  {
    hide Sent, FreshId, Silent;
    var n := |d.sent|;
    assert forall k :: 0 <= k < n ==> more.sent[k] == more.sent[..n][k];
    forall k: nat | k < |more.sent| ensures RequestOk(all, more, k) {
      if k < n { assert RequestOk(all, d, k); }
    }
    forall k: nat | k < |more.answered| ensures AnswerOk(all, more, k) { assert AnswerOk(all, d, k); }
    forall j, k | 1 <= j < k < |more.sent| && all[more.sent[j]].Listing? && all[more.sent[k]].Listing?
      ensures all[more.sent[j]].cursor != all[more.sent[k]].cursor
    {
      if k == n && all[more.sent[j]].cursor.Cursor? {
        assert all[d.sent[j]].cursor.text in Followed(all, d);
      }
    }
  }

  lemma ContinuesDiscovery(events: seq<Event>, e: Event, d: Discovery)
    requires AllReserved(events) && IsDiscovery(events, d) && |d.sent| == |d.answered|
    requires e.Listing? && e.cursor.Cursor? && Forwards(After(events), e)
    requires Placed(events, d) && CursorAfter(events, d.answered, |d.answered|) == e.cursor &&
             e.cursor.text !in Followed(events, d)
    ensures IsDiscovery(events + [e], Discovery(d.sent + [|events|], d.answered))
  {
    hide Sent, FreshId, After, AllReserved, Forwards, Followed, IsDiscovery, AddTools, Requested, Responded, Silent;
    var all, more := events + [e], Discovery(d.sent + [|events|], d.answered);
    SentNow(events, e);
    ForwardedIsFresh(events, e);
    DiscoveryStays(events, e, d);
    FollowedStays(events, e, d);
    PlacedDiscovery(all, d);
    assert more.sent[|d.sent|] == |events| && all[|events|] == e && more.sent[..|d.sent|] == d.sent;
    assert RequestOk(all, more, |d.sent|);
    hide RequestOk;
    MoreRequests(all, d, more);
  }

  /** The next request continues the discovery. */
  lemma Continues(events: seq<Event>, e: Event, o: Observer, other: map<Id, bool>, d: Discovery)
    requires AllReserved(events) && Tracks(events, o, other, d) && o == After(events).observer
    requires e.Listing? && e.cursor.Cursor? && Forwards(After(events), e)
    ensures Tracks(events + [e], Requested(o, e.id, e.cursor).observer, Step(After(events), e).other,
            Discovery(d.sent + [|events|], d.answered))
  {
    hide Forwards, After, Step, AllReserved, IsDiscovery, Collected, Followed, AddTools, Requested, Responded, Silent;
    ForwardedListing(After(events), e);
    NextRequested(o, e);
    PlacedDiscovery(events, d);
    CollectedStays(events, e, d.answered);
    ContinuesDiscovery(events, e, d);
    FollowedMore(events, e, d);
    NothingBetween(events + [e], e.id, |events|);
  }

  lemma NextRequested(o: Observer, e: Event)
    requires e.Listing? && e.cursor.Cursor? && Requested(o, e.id, e.cursor).ok
    ensures o.cursor == Some(e.cursor.text) && o.request.None? && e.cursor.text !in o.seen &&
            |o.seen| < MAX_CONTRACT_TOOLS
    ensures Requested(o, e.id, e.cursor).observer == o.(seen := o.seen + {e.cursor.text}, request := Some(e.id))
  {
  }

  lemma NothingBetween(events: seq<Event>, id: Id, i: nat)
    requires i + 1 == |events|
    ensures Silent(events, id, i, |events|)
  {
  }

  lemma PlacedDiscovery(events: seq<Event>, d: Discovery)
    requires IsDiscovery(events, d)
    ensures Placed(events, d)
  {
  }

  /** The reply to the listing in flight is one more answer of the discovery. */
  lemma AnsweredDiscovery(events: seq<Event>, e: Event, d: Discovery)
    requires IsDiscovery(events, d) && |d.sent| == |d.answered| + 1 && e.Reply? && e.answer.Page?
    requires var last := d.sent[|d.answered|];
             events[last].Listing? && events[last].id == e.id && Silent(events, e.id, last, |events|)
    ensures IsDiscovery(events + [e], Discovery(d.sent, d.answered + [|events|]))
  {
    var all, more := events + [e], Discovery(d.sent, d.answered + [|events|]);
    var n := |d.answered|;
    DiscoveryStays(events, e, d);
    SilentStays(events, e, e.id, d.sent[n], |events|);
    assert more.answered[n] == |events| && all[|events|] == e;
    hide Silent, FreshId, Sent, IsDiscovery;
    assert all[d.sent[n]] == events[d.sent[n]];
    AnswerAdded(all, d, |events|);
  }

  lemma AnsweredHolds(events: seq<Event>, e: Event, o: Observer, d: Discovery)
    requires Placed(events, d) && Holds(events, o, d) && !o.status.Complete? && |d.sent| == |d.answered| + 1
    requires e.Reply? && o.request == Some(e.id)
    requires e.answer.Page? && AddTools(o.building, e.answer.tools).Some? && NextOk(o, e.answer.next)
    ensures Holds(events + [e], Responded(o, e.id, e.answer).observer, Discovery(d.sent, d.answered + [|events|]))
  {
    var all, more := events + [e], Discovery(d.sent, d.answered + [|events|]);
    CollectedStays(events, e, d.answered);
    FollowedStays(events, e, d);
    hide AddTools;
    assert Followed(all, more) == Followed(all, d);
    hide Followed, Collected;
    assert all[|events|] == e;
    CollectedOne(all, d.answered, |events|);
  }

  lemma AnsweredStands(events: seq<Event>, e: Event, o: Observer, other: map<Id, bool>, d: Discovery)
    requires |d.sent| == |d.answered| + 1 && Placed(events + [e], Discovery(d.sent, d.answered + [|events|]))
    requires !o.status.Complete? && o.live == map[] && e.Reply? && o.request == Some(e.id)
    requires e.answer.Page? && AddTools(o.building, e.answer.tools).Some? && NextOk(o, e.answer.next)
    ensures Stands(events + [e], Responded(o, e.id, e.answer).observer, other,
            Discovery(d.sent, d.answered + [|events|]))
  {
    hide AddTools, Silent;
    assert (events + [e])[|events|] == e;
  }

  lemma Answered(events: seq<Event>, e: Event, o: Observer, other: map<Id, bool>, after: map<Id, bool>, d: Discovery)
    requires Tracks(events, o, other, d) && e.Reply? && o.request == Some(e.id)
    requires e.answer.Page? && AddTools(o.building, e.answer.tools).Some? && NextOk(o, e.answer.next)
    ensures Tracks(events + [e], Responded(o, e.id, e.answer).observer, after,
            Discovery(d.sent, d.answered + [|events|]))
  {
    hide AddTools, Silent, Holds, IsDiscovery, Responded, NextOk, Placed;
    assert Placed(events, d) by { DiscoveryPlaced(events, d); }
    AnsweredDiscovery(events, e, d);
    DiscoveryPlaced(events + [e], Discovery(d.sent, d.answered + [|events|]));
    AnsweredHolds(events, e, o, d);
    AnsweredStands(events, e, o, after, d);
    hide Stands;
  }

  lemma DiscoveryPlaced(events: seq<Event>, d: Discovery)
    requires IsDiscovery(events, d)
    ensures Placed(events, d)
  {
  }

  lemma CollectedOne(events: seq<Event>, answered: seq<nat>, i: nat)
    requires (forall k :: 0 <= k < |answered| ==> answered[k] < |events|) && i < |events| &&
             Collected(events, answered).Some?
    requires PageAt(events, i).Page?
    ensures Collected(events, answered + [i]) == AddTools(Collected(events, answered).value, PageAt(events, i).tools)
  {
    hide AddTools;
    assert (answered + [i])[..|answered|] == answered;
  }

  /** One more answer keeps what was known of the requests and answers before. */
  lemma AnswerAdded(events: seq<Event>, d: Discovery, i: nat)
    requires IsDiscovery(events, d) && i < |events| && Placed(events, Discovery(d.sent, d.answered + [i]))
    requires AnswerOk(events, Discovery(d.sent, d.answered + [i]), |d.answered|)
    ensures IsDiscovery(events, Discovery(d.sent, d.answered + [i]))
  {
    hide Silent, FreshId, Sent;
    var more := Discovery(d.sent, d.answered + [i]);
    forall k: nat | k < |more.sent| ensures RequestOk(events, more, k) {
      assert RequestOk(events, d, k);
      assert CursorAfter(events, more.answered, k) == CursorAfter(events, d.answered, k);
    }
    forall k: nat | k < |more.answered| ensures AnswerOk(events, more, k) {
      if k < |d.answered| { assert AnswerOk(events, d, k); }
    }
  }

  /** Every step keeps the invariant, for some discovery. */
  lemma StepKeeps(events: seq<Event>, e: Event, d: Option<Discovery>) returns (next: Option<Discovery>)
    requires Invariant(events, d) && AllReserved(events)
    ensures Invariant(events + [e], next)
  {
    AfterMore(events, e);
    var s := After(events);
    var t := Step(s, e);
    if e.Listing? && !Reserved(s, e.id) && |s.other| < MAX_OTHER && s.observer.request.None? {
      next := ListingKeeps(events, e, d);
    } else if e.Reply? && e.id in s.other && s.other[e.id] && s.observer.request == Some(e.id) {
      next := ReplyKeeps(events, e, d);
    } else if e.ListChanged? {
      next := None;
    } else {
      next := d;
      assert t.observer == s.observer;
      if d.Some? {
        hide After, Tracks, Requested, Responded;
        InFlight(events, s.observer, s.other, d.value);
        TracksStays(events, e, s.observer, s.other, t.other, d.value);
      }
    }
  }

  lemma InFlight(events: seq<Event>, o: Observer, other: map<Id, bool>, d: Discovery)
    requires Tracks(events, o, other, d)
    ensures o.request.Some? ==> o.request.value in other && other[o.request.value]
  {
  }

  lemma ListingKeeps(events: seq<Event>, e: Event, d: Option<Discovery>) returns (next: Option<Discovery>)
    requires Invariant(events, d) && AllReserved(events) && e.Listing?
    requires var s := After(events); !Reserved(s, e.id) && |s.other| < MAX_OTHER && s.observer.request.None?
    ensures Invariant(events + [e], next)
  {
    AfterMore(events, e);
    var s := After(events);
    hide After, Tracks;
    if e.cursor.NoCursor? {
      Begins(events, e);
      return Some(Discovery([|events|], []));
    }
    if Requested(s.observer, e.id, e.cursor).ok {
      Continues(events, e, s.observer, s.other, d.value);
      return Some(Discovery(d.value.sent + [|events|], d.value.answered));
    }
    return None;
  }

  lemma ReplyKeeps(events: seq<Event>, e: Event, d: Option<Discovery>) returns (next: Option<Discovery>)
    requires Invariant(events, d) && e.Reply?
    requires var s := After(events); e.id in s.other && s.other[e.id] && s.observer.request == Some(e.id)
    ensures Invariant(events + [e], next)
  {
    AfterMore(events, e);
    var s := After(events);
    hide After, Tracks, AddTools;
    if e.answer.Page? && AddTools(s.observer.building, e.answer.tools).Some? && NextOk(s.observer, e.answer.next) {
      Answered(events, e, s.observer, s.other, Step(s, e).other, d.value);
      return Some(Discovery(d.value.sent, d.value.answered + [|events|]));
    }
    return None;
  }

  lemma {:induction false} RunKeeps(events: seq<Event>) returns (d: Option<Discovery>)
    ensures Invariant(events, d) && AllReserved(events)
    decreases |events|
  {
    if events == [] {
      d := None;
    } else {
      var n := |events| - 1;
      assert events == events[..n] + [events[n]];
      var before := RunKeeps(events[..n]);
      hide Invariant, AllReserved;
      ReservedStep(events[..n], events[n]);
      d := StepKeeps(events[..n], events[n], before);
    }
  }

  // ----- what a complete inventory is ---------------------------------------------------------

  predicate Lists(m: map<string, string>, name: string, digest: string) { name in m && m[name] == digest }

  predicate OnPage(events: seq<Event>, i: nat, name: string, digest: string)
    requires i < |events|
  {
    PageAt(events, i).Page? && Tool(name, digest) in PageAt(events, i).tools
  }

  ghost predicate OnSomePage(events: seq<Event>, answered: seq<nat>, name: string, digest: string)
    requires forall k :: 0 <= k < |answered| ==> answered[k] < |events|
  {
    exists k :: 0 <= k < |answered| && OnPage(events, answered[k], name, digest)
  }

  lemma {:induction false} AddedTools(building: map<string, string>, tools: seq<Tool>)
    requires AddTools(building, tools).Some?
    ensures var m := AddTools(building, tools).value;
            forall name, digest :: Lists(m, name, digest) <==> Lists(building, name, digest) ||
                                                               Tool(name, digest) in tools
    ensures |building| <= MAX_CONTRACT_TOOLS ==> |AddTools(building, tools).value| <= MAX_CONTRACT_TOOLS
    decreases |tools|
  {
    if tools != [] {
      var next := building[tools[0].name := tools[0].digest];
      AddedTools(next, tools[1..]);
      var m := AddTools(building, tools).value;
      forall name, digest ensures Lists(m, name, digest) <==> Lists(building, name, digest) ||
                                                              Tool(name, digest) in tools {
        assert Tool(name, digest) in tools <==> Tool(name, digest) == tools[0] || Tool(name, digest) in tools[1..];
      }
    }
  }

  lemma OnSomePageLast(events: seq<Event>, answered: seq<nat>, name: string, digest: string)
    requires (forall k :: 0 <= k < |answered| ==> answered[k] < |events|) && answered != []
    ensures var n := |answered| - 1;
            OnSomePage(events, answered, name, digest) <==>
            OnSomePage(events, answered[..n], name, digest) || OnPage(events, answered[n], name, digest)
  {
    hide OnPage;
    var n := |answered| - 1;
    if OnSomePage(events, answered, name, digest) {
      var k :| 0 <= k < |answered| && OnPage(events, answered[k], name, digest);
      if k < n { assert OnPage(events, answered[..n][k], name, digest); }
    }
    if OnSomePage(events, answered[..n], name, digest) {
      var k :| 0 <= k < n && OnPage(events, answered[..n][k], name, digest);
      assert OnPage(events, answered[k], name, digest);
    }
  }

  /** The collected tools are the union of the pages. */
  lemma {:induction false} CollectedTools(events: seq<Event>, answered: seq<nat>)
    requires (forall k :: 0 <= k < |answered| ==> answered[k] < |events|) && Collected(events, answered).Some?
    ensures var m := Collected(events, answered).value;
            forall name, digest :: Lists(m, name, digest) <==> OnSomePage(events, answered, name, digest)
    ensures |Collected(events, answered).value| <= MAX_CONTRACT_TOOLS
    decreases |answered|
  {
    if answered != [] {
      var n := |answered| - 1;
      CollectedTools(events, answered[..n]);
      AddedTools(Collected(events, answered[..n]).value, PageAt(events, answered[n]).tools);
      hide AddTools, OnSomePage, Lists;
      var m := Collected(events, answered).value;
      forall name, digest ensures Lists(m, name, digest) <==> OnSomePage(events, answered, name, digest) {
        OnSomePageLast(events, answered, name, digest);
      }
    }
  }

  // ----- no tool twice ------------------------------------------------------------------------

  /** Every tool is readable, and no name occurs twice. */
  predicate Distinct(tools: seq<Tool>) {
    (forall i :: 0 <= i < |tools| ==> tools[i].Tool?) &&
    forall i, j :: 0 <= i < j < |tools| && tools[i].Tool? && tools[j].Tool? ==> tools[i].name != tools[j].name
  }

  function Names(tools: seq<Tool>): set<string> { set t | t in tools && t.Tool? :: t.name }

  /** Tools that can be added to those already named. */
  predicate Addable(tools: seq<Tool>, named: set<string>) { Distinct(tools) && named !! Names(tools) }

  lemma AddableStep(tools: seq<Tool>, named: set<string>)
    requires tools != [] && tools[0].Tool?
    ensures Addable(tools, named) <==> tools[0].name !in named && Addable(tools[1..], named + {tools[0].name})
    ensures Names(tools) == {tools[0].name} + Names(tools[1..])
  {
    assert tools == [tools[0]] + tools[1..];
    DistinctFirst(tools[0], tools[1..]);
    hide Distinct, Names;
  }

  lemma AddableEnds(tools: seq<Tool>, named: set<string>)
    ensures tools == [] ==> Addable(tools, named) && Names(tools) == {}
    ensures tools != [] && Addable(tools, named) ==> tools[0].Tool?
  {
  }

  lemma {:induction false} AddedIff(building: map<string, string>, tools: seq<Tool>)
    requires |building| <= MAX_CONTRACT_TOOLS
    ensures AddTools(building, tools).Some? <==> Addable(tools, building.Keys) &&
                                                 |building| + |tools| <= MAX_CONTRACT_TOOLS
    ensures AddTools(building, tools).Some? ==>
              var m := AddTools(building, tools).value; m.Keys == building.Keys + Names(tools) &&
                                                        |m| == |building| + |tools|
    decreases |tools|
  {
    hide Addable, Names, AddTools;
    AddableEnds(tools, building.Keys);
    AddToolsStep(building, tools);
    if tools != [] && tools[0].Tool? {
      AddableStep(tools, building.Keys);
      if tools[0].name !in building && |building| < MAX_CONTRACT_TOOLS {
        OneMoreName(building, tools[0].name, tools[0].digest, Names(tools[1..]));
        AddedIff(building[tools[0].name := tools[0].digest], tools[1..]);
      }
    }
  }

  lemma AddToolsStep(building: map<string, string>, tools: seq<Tool>)
    ensures tools == [] ==> AddTools(building, tools) == Some(building)
    ensures tools != [] ==>
              AddTools(building, tools) ==
              if tools[0].BadTool? || tools[0].name in building || |building| >= MAX_CONTRACT_TOOLS then None
              else AddTools(building[tools[0].name := tools[0].digest], tools[1..])
  {
  }

  lemma OneMoreName(building: map<string, string>, name: string, digest: string, rest: set<string>)
    requires name !in building
    ensures var next := building[name := digest];
            next.Keys == building.Keys + {name} && |next| == |building| + 1 &&
              next.Keys + rest == building.Keys + ({name} + rest)
  {
    assert building[name := digest].Keys == building.Keys + {name};
  }

  lemma DistinctFirst(first: Tool, rest: seq<Tool>)
    requires first.Tool?
    ensures Distinct([first] + rest) <==> Distinct(rest) && first.name !in Names(rest)
    ensures Names([first] + rest) == {first.name} + Names(rest)
  {
    var all := [first] + rest;
    assert all[0] == first && all[1..] == rest;
    if Distinct(all) {
      forall i, j | 0 <= i < j < |rest| ensures rest[i].name != rest[j].name {
        assert all[i + 1] == rest[i] && all[j + 1] == rest[j];
      }
      forall i | 0 <= i < |rest| ensures rest[i].Tool? && rest[i].name != first.name { assert all[i + 1] == rest[i]; }
    }
    if Distinct(rest) && first.name !in Names(rest) {
      forall i, j | 0 <= i < j < |all| ensures all[i].Tool? && all[j].Tool? && all[i].name != all[j].name {
        assert all[j] == rest[j - 1] && rest[j - 1] in rest;
      }
    }
  }

  /** The tools of all pages, one page after the other. */
  function AllTools(events: seq<Event>, answered: seq<nat>): seq<Tool>
    requires forall k :: 0 <= k < |answered| ==> answered[k] < |events|
  {
    if answered == [] then []
    else
      var page := PageAt(events, answered[|answered| - 1]);
      AllTools(events, answered[..|answered| - 1]) + if page.Page? then page.tools else []
  }

  lemma DistinctJoin(front: seq<Tool>, back: seq<Tool>)
    ensures Distinct(front + back) <==> Distinct(front) && Distinct(back) && Names(front) !! Names(back)
    ensures Names(front + back) == Names(front) + Names(back)
  {
    var all := front + back;
    if Distinct(all) {
      assert all[..|front|] == front && all[|front|..] == back;
      forall i, j | 0 <= i < |front| && 0 <= j < |back| ensures front[i].Tool? && back[j].Tool? &&
        front[i].name != back[j].name {
        assert all[i] == front[i] && all[|front| + j] == back[j];
      }
    }
    if Distinct(front) && Distinct(back) && Names(front) !! Names(back) {
      forall i, j | 0 <= i < j < |all| && all[i].Tool? && all[j].Tool? ensures all[i].name != all[j].name {
        if i < |front| <= j { assert all[i].name in Names(front) && all[j].name in Names(back); }
      }
    }
  }

  /** Pages can be collected exactly if no name occurs twice over all of them and there are not too many. */
  lemma {:induction false} CollectedIff(events: seq<Event>, answered: seq<nat>)
    requires forall k :: 0 <= k < |answered| ==> answered[k] < |events| && PageAt(events, answered[k]).Page?
    ensures Collected(events, answered).Some? <==>
              Distinct(AllTools(events, answered)) && |AllTools(events, answered)| <= MAX_CONTRACT_TOOLS
    ensures Collected(events, answered).Some? ==>
              var m := Collected(events, answered).value;
              m.Keys == Names(AllTools(events, answered)) && |m| == |AllTools(events, answered)|
    decreases |answered|
  {
    if answered != [] {
      var front, page := answered[..|answered| - 1], PageAt(events, answered[|answered| - 1]);
      CollectedIff(events, front);
      DistinctJoin(AllTools(events, front), page.tools);
      if Collected(events, front).Some? { AddedIff(Collected(events, front).value, page.tools); }
    }
  }

  lemma {:induction false} CollectedArePages(events: seq<Event>, answered: seq<nat>)
    requires (forall k :: 0 <= k < |answered| ==> answered[k] < |events|) && Collected(events, answered).Some?
    ensures forall k :: 0 <= k < |answered| ==> PageAt(events, answered[k]).Page?
    decreases |answered|
  {
    if answered != [] { CollectedArePages(events, answered[..|answered| - 1]); }
  }

  // ----- limits -------------------------------------------------------------------------------

  predicate CursorOk(c: string) { 1 <= |c| <= MAX_CURSOR }

  /** Cursors that are followed are not empty and not too long, and no more than 32 requests wait beside tool calls. */
  ghost predicate Limited(s: Session) {
    (s.observer.cursor.Some? ==> CursorOk(s.observer.cursor.value)) &&
    (forall c :: c in s.observer.seen ==> CursorOk(c)) && |s.other| <= MAX_OTHER
  }

  lemma {:induction false} RunLimited(events: seq<Event>)
    ensures Limited(After(events))
  {
    if events != [] {
      RunLimited(events[..|events| - 1]);
      StepLimited(After(events[..|events| - 1]), events[|events| - 1]);
    }
  }

  lemma StepLimited(s: Session, e: Event)
    requires Limited(s)
    ensures Limited(Step(s, e))
  {
    hide AddTools;
    if e.Reply? && e.id in s.other {
      assert (s.other - {e.id}).Keys == s.other.Keys - {e.id};
      assert |s.other - {e.id}| == |(s.other - {e.id}).Keys| && |s.other| == |s.other.Keys|;
    } else if e.Listing? || e.OtherRequest? {
      OneMore(s.other, e.id, e.Listing?);
    }
  }

  lemma OneMore(m: map<Id, bool>, id: Id, b: bool)
    ensures |m[id := b]| <= |m| + 1
  {
    assert m[id := b].Keys == m.Keys + {id};
    assert |m[id := b]| == |m[id := b].Keys| && |m| == |m.Keys|;
  }

  /** A tool call that was passed on, and no reply since has settled it. */
  ghost predicate Unsettled(events: seq<Event>, i: nat) {
    i < |events| && events[i].ToolCall? && Sent(events, i) &&
    forall j :: i < j < |events| && RepliesTo(events, j, events[i].id) ==> !events[j].settles
  }

  /** A tool call keeps its id until a reply settles it: no other reply, and no announcement, releases it. */
  lemma {:induction false} CallsStay(events: seq<Event>, i: nat)
    requires Unsettled(events, i)
    ensures events[i].id in After(events).calls && events[i].id !in After(events).other
    decreases |events|
  {
    var front, last := events[..|events| - 1], events[|events| - 1];
    if i == |events| - 1 {
      assert events[..i] == front;
      CallOpened(After(front), last);
    } else {
      assert front[i] == events[i] && front[..i] == events[..i];
      forall j | i < j < |front| && RepliesTo(front, j, front[i].id) ensures !front[j].settles {
        assert RepliesTo(events, j, events[i].id);
      }
      CallsStay(front, i);
      assert RepliesTo(events, |events| - 1, events[i].id) ==> !last.settles;
      hide Sent, After;
      CallKept(After(front), last, events[i].id);
    }
  }

  lemma CallKept(s: Session, e: Event, id: Id)
    requires id in s.calls && id !in s.other && !(e.Reply? && e.id == id && e.settles)
    ensures id in Step(s, e).calls && id !in Step(s, e).other
  {
    hide AddTools;
  }

  lemma CallOpened(s: Session, e: Event)
    requires e.ToolCall? && Forwards(s, e)
    ensures e.id in Step(s, e).calls && e.id !in Step(s, e).other
  {
    hide AddTools;
  }

  /**
    A complete inventory holds exactly the tools of the pages of one undisturbed discovery,
    and no name occurs twice on them.
  */
  lemma CompleteIsOneDiscovery(events: seq<Event>) returns (d: Discovery)
    requires After(events).observer.status.Complete?
    ensures IsDiscovery(events, d) && |d.sent| == |d.answered| && |Followed(events, d)| <= MAX_CONTRACT_TOOLS
    ensures var last := PageAt(events, d.answered[|d.answered| - 1]); last.Page? && last.next.NoNext?
    ensures var live := After(events).observer.live;
            Collected(events, d.answered) == Some(live) &&
            forall name, digest :: Lists(live, name, digest) <==> OnSomePage(events, d.answered, name, digest)
    ensures var tools := AllTools(events, d.answered);
            Distinct(tools) && After(events).observer.live.Keys == Names(tools) &&
              |After(events).observer.live| == |tools|
    ensures |After(events).observer.live| <= MAX_CONTRACT_TOOLS
    ensures forall c :: c in Followed(events, d) ==> CursorOk(c)
  {
    var found := RunKeeps(events);
    RunLimited(events);
    d := found.value;
    CollectedTools(events, d.answered);
    CollectedArePages(events, d.answered);
    CollectedIff(events, d.answered);
  }
}
