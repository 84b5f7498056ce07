/**
  Paginated discovery of tool contracts: the observer follows one inventory page by page,
  and the proxy keeps a request id reserved until it is answered.
*/
module ContractObserver {
  import opened Wrappers

  const MAX_CONTRACT_TOOLS: nat := 256
  const MAX_CURSOR: nat := 4096
  const MAX_OTHER: nat := 32

  type Id = int

  datatype Status = Missing | Unverified | Ambiguous | Invalid | Complete

  datatype Tool = Tool(name: string, digest: string) | BadTool

  datatype NextCursor = NoNext | Next(text: string) | BadNext

  /** A response to a listing: a page, or anything that is not one. */
  datatype Answer = Page(tools: seq<Tool>, next: NextCursor) | Failure

  datatype CursorArg = NoCursor | Cursor(text: string) | NotText

  datatype Observer = Observer(
    live: map<string, string>, building: map<string, string>, request: Option<Id>, cursor: Option<string>,
      seen: set<string>, status: Status)

  function Cleared(status: Status): Observer { Observer(map[], map[], None, None, {}, status) }

  datatype Attempt = Attempt(observer: Observer, ok: bool)

  /** A listing request: it starts a new inventory or continues with the cursor just returned. */
  function Requested(o: Observer, id: Id, cursor: CursorArg): Attempt {
    if o.request.Some? then Attempt(o, false)
    else
      match cursor
      case NoCursor => Attempt(Cleared(Unverified).(request := Some(id)), true)
      case NotText => Attempt(Cleared(Ambiguous), false)
      case Cursor(c) =>
        if o.cursor != Some(c) || c in o.seen then Attempt(Cleared(Ambiguous), false)
        else if |o.seen| >= MAX_CONTRACT_TOOLS then Attempt(Cleared(Invalid), false)
        else Attempt(o.(seen := o.seen + {c}, request := Some(id)), true)
  }

  /** Adds the tools of a page; a repeated name or too many tools is an error. */
  function AddTools(building: map<string, string>, tools: seq<Tool>): Option<map<string, string>>
    decreases |tools|
  {
    if tools == [] then Some(building)
    else if tools[0].BadTool? || tools[0].name in building || |building| >= MAX_CONTRACT_TOOLS then None
    else AddTools(building[tools[0].name := tools[0].digest], tools[1..])
  }

  function NextOk(o: Observer, next: NextCursor): bool {
    match next
    case NoNext => true
    case Next(c) => c != "" && |c| <= MAX_CURSOR && c !in o.seen
    case BadNext => false
  }

  /** A response; only the one to the request in flight is counted. */
  function Responded(o: Observer, id: Id, answer: Answer): Attempt {
    if o.request != Some(id) then Attempt(o, false)
    else if answer.Failure? then Attempt(Cleared(Invalid), true)
    else
      var added := AddTools(o.building, answer.tools);
      if added.None? || !NextOk(o, answer.next) then Attempt(Cleared(Invalid), true)
      else if answer.next.Next? then
        Attempt(o.(request := None, building := added.value, cursor := Some(answer.next.text)), true)
      else Attempt(o.(request := None, live := added.value, building := map[], cursor := None, status := Complete),
        true)
  }

  datatype Check = SemanticsChanged | Unpinned | Incomplete(status: Status) | NotFound | Changed | Matched

  class MCPContractObserver {
    const pins: map<string, string>
    const semanticsUnchanged: bool
    var live: map<string, string>
    var building: map<string, string>
    var request: Option<Id>
    var cursor: Option<string>
    var seenCursors: set<string>
    var status: Status

    function State(): Observer
      reads this
    {
      Observer(live, building, request, cursor, seenCursors, status)
    }

    constructor (pins: map<string, string>, semanticsUnchanged: bool)
      ensures State() == Cleared(Missing) && this.pins == pins && this.semanticsUnchanged == semanticsUnchanged
    {
      this.pins, this.semanticsUnchanged := pins, semanticsUnchanged;
      live, building, request, cursor, seenCursors, status := map[], map[], None, None, {}, Missing;
    }

    method Invalidate(newStatus: Status)
      modifies this
      ensures State() == Cleared(newStatus)
    {
      live, building, request, cursor, seenCursors, status := map[], map[], None, None, {}, newStatus;
    }

    method Request(id: Id, arg: CursorArg) returns (ok: bool)
      modifies this
      ensures Attempt(State(), ok) == Requested(old(State()), id, arg)
    {
      if request.Some? { return false; }
      if arg.NoCursor? {
        Invalidate(Unverified);
      } else if arg.NotText? || cursor != Some(arg.text) || arg.text in seenCursors {
        Invalidate(Ambiguous);
        return false;
      } else {
        if |seenCursors| >= MAX_CONTRACT_TOOLS {
          Invalidate(Invalid);
          return false;
        }
        seenCursors := seenCursors + {arg.text};
      }
      request := Some(id);
      return true;
    }

    method Response(id: Id, answer: Answer) returns (counted: bool)
      modifies this
      ensures Attempt(State(), counted) == Responded(old(State()), id, answer)
    {
      if request != Some(id) { return false; }
      if answer.Failure? {
        Invalidate(Invalid);
        return true;
      }
      var added := building;
      var i := 0;
      assert answer.tools[0..] == answer.tools;
      while i < |answer.tools|
        invariant i <= |answer.tools|
        invariant AddTools(building, answer.tools) == AddTools(added, answer.tools[i..])
      {
        var tool := answer.tools[i];
        assert answer.tools[i..][1..] == answer.tools[i + 1..];
        if tool.BadTool? || tool.name in added || |added| >= MAX_CONTRACT_TOOLS {
          Invalidate(Invalid);
          return true;
        }
        added := added[tool.name := tool.digest];
        i := i + 1;
      }
      if !NextOk(State(), answer.next) {
        Invalidate(Invalid);
        return true;
      }
      request := None;
      if answer.next.Next? {
        building, cursor := added, Some(answer.next.text);
      } else {
        live, building, cursor, status := added, map[], None, Complete;
      }
      return true;
    }

    /** A tool matches only on a complete inventory that lists it with the pinned digest. */
    method CheckTool(tool: string) returns (check: Check)
      ensures check.Matched? <==> semanticsUnchanged && status.Complete? && tool in pins && tool in live &&
                                  live[tool] == pins[tool]
      ensures check.Changed? ==> status.Complete? && tool in pins && tool in live && live[tool] != pins[tool]
      ensures check.NotFound? ==> status.Complete? && tool in pins && tool !in live
    {
      if !semanticsUnchanged { return SemanticsChanged; }
      if tool !in pins { return Unpinned; }
      if !status.Complete? { return Incomplete(status); }
      if tool !in live { return NotFound; }
      return if live[tool] == pins[tool] then Matched else Changed;
    }
  }

  // ----- the proxy ----------------------------------------------------------------------------

  /**
    Messages that reach the proxy. Whether a tool call is admitted, and whether the reply to
    one settles it, is decided elsewhere.
  */
  datatype Event =
    | Listing(id: Id, cursor: CursorArg)
    | OtherRequest(id: Id)
    | ToolCall(id: Id, admitted: bool)
    | Reply(id: Id, answer: Answer, settles: bool)
    | ListChanged

  /** Requests in flight, with whether they are listings, and tool calls in flight. */
  datatype Session = Session(observer: Observer, other: map<Id, bool>, calls: set<Id>)

  predicate IsRequest(e: Event) { e.Listing? || e.OtherRequest? || e.ToolCall? }

  predicate Reserved(s: Session, id: Id) { id in s.other || id in s.calls }

  /** Whether a client's request is passed on. */
  predicate Forwards(s: Session, e: Event) {
    match e
    case Listing(id, cursor) => !Reserved(s, id) && |s.other| < MAX_OTHER && Requested(s.observer, id, cursor).ok
    case OtherRequest(id) => !Reserved(s, id) && |s.other| < MAX_OTHER
    case ToolCall(id, admitted) => admitted && !Reserved(s, id)
    case _ => false
  }

  function Step(s: Session, e: Event): Session {
    match e
    case Listing(id, cursor) =>
      if Reserved(s, id) || |s.other| >= MAX_OTHER then s
      else
        var a := Requested(s.observer, id, cursor);
        s.(observer := a.observer, other := if a.ok then s.other[id := true] else s.other)
    case OtherRequest(id) => if Reserved(s, id) || |s.other| >= MAX_OTHER then s else s.(other := s.other[id := false])
    case ToolCall(id, admitted) => if admitted && !Reserved(s, id) then s.(calls := s.calls + {id}) else s
    case Reply(id, answer, settles) =>
      if id in s.other then
        s.(other := s.other - {id}, observer := if s.other[id] then Responded(s.observer, id, answer).observer
          else s.observer)
      else if id in s.calls && settles then s.(calls := s.calls - {id})
      else s
    case ListChanged => s.(observer := Cleared(Unverified))
  }

  class MCPProxy {
    const observer: MCPContractObserver
    var otherPending: map<Id, bool>
    var pending: set<Id>

    function State(): Session
      reads this, observer
    {
      Session(observer.State(), otherPending, pending)
    }

    constructor (observer: MCPContractObserver)
      ensures this.observer == observer && otherPending == map[] && pending == {}
    {
      this.observer := observer;
      otherPending, pending := map[], {};
    }

    method ClientRequest(e: Event) returns (forward: bool)
      requires IsRequest(e)
      modifies this, observer
      ensures State() == Step(old(State()), e) && forward == Forwards(old(State()), e)
    {
      var id := e.id;
      if id in pending || id in otherPending { return false; }
      match e {
        case ToolCall(_, admitted) =>
          if !admitted { return false; }
          pending := pending + {id};
        case Listing(_, cursor) =>
          if |otherPending| >= MAX_OTHER { return false; }
          var ok := observer.Request(id, cursor);
          if !ok { return false; }
          otherPending := otherPending[id := true];
        case OtherRequest(_) =>
          if |otherPending| >= MAX_OTHER { return false; }
          otherPending := otherPending[id := false];
      }
      return true;
    }

    method ServerMessage(e: Event)
      requires e.Reply? || e.ListChanged?
      modifies this, observer
      ensures State() == Step(old(State()), e)
    {
      if e.ListChanged? {
        observer.Invalidate(Unverified);
        return;
      }
      if e.id in otherPending {
        var listing := otherPending[e.id];
        otherPending := otherPending - {e.id};
        if listing {
          var counted := observer.Response(e.id, e.answer);
        }
        return;
      }
      if e.id in pending && e.settles { pending := pending - {e.id}; }
    }
  }
}
