/**
 * The consultation ticket queue of the community bot.
 *
 * Three pieces of state live together: a counter that hands out ticket numbers, a FIFO
 * list of waiting tickets, and a flag saying whether the ticket at the head of the list
 * is being served right now. Requesters take a ticket in two steps (press the button,
 * then choose a counseling type); administrators start, complete, complete-by-number and
 * reset. The admin panel is a read-only projection of the same state.
 *
 * The chat platform is not modelled: whether the acting user is an administrator is the
 * parameter `isAdmin`, and each refusal the bot would send as a message is a `Refusal`.
 */
module ConsultationQueue {
  import opened Common

  /** One option of the counseling-type menu: the text shown, the value stored, the emoji. */
  datatype CounselingType = CounselingType(caption: string, value: string, emoji: string)

  /** The menu, in the order it is offered. */
  const CounselingTypes: seq<CounselingType> := [
    CounselingType("진로 상담", "career", "🎯"),
    CounselingType("공부 상담", "study", "📚"),
    CounselingType("프로젝트 고민", "project", "💡"),
    CounselingType("기타", "other", "💬")
  ]

  /** The label shown for a value that is not on the menu. */
  const UnknownTypeLabel: string := "❓ 알 수 없음"

  /** The first menu entry whose stored value is `v`, if there is one. */
  function FindType(table: seq<CounselingType>, v: string): (r: Option<CounselingType>)
    ensures r.None? <==> forall i :: 0 <= i < |table| ==> table[i].value != v
    ensures r.Some? ==> r.value in table && r.value.value == v
  {
    if table == [] then None
    else if table[0].value == v then Some(table[0])
    else FindType(table[1..], v)
  }

  /** The text shown for a stored counseling-type value. */
  function CounselingTypeLabel(v: string): string
  {
    match FindType(CounselingTypes, v)
    case Some(t) => t.emoji + " " + t.caption
    case None => UnknownTypeLabel
  }

  /** Only the four menu values get a real label; everything else is shown as unknown. */
  lemma LabelKnownIff(v: string)
    ensures CounselingTypeLabel(v) != UnknownTypeLabel <==> v in {"career", "study", "project", "other"}
    ensures CounselingTypeLabel(v) != UnknownTypeLabel <==> exists i :: 0 <= i < |CounselingTypes| && CounselingTypes[i].value == v
  {
  }

  /** Each menu value is shown as its own entry's emoji and caption. */
  lemma LabelOfMenuEntry(i: int)
    requires 0 <= i < |CounselingTypes|
    ensures CounselingTypeLabel(CounselingTypes[i].value) == CounselingTypes[i].emoji + " " + CounselingTypes[i].caption
  {
  }

  /** Different menu values are shown with different labels. */
  lemma LabelsDistinct(v: string, w: string)
    requires v != w
    requires CounselingTypeLabel(v) != UnknownTypeLabel
    ensures CounselingTypeLabel(v) != CounselingTypeLabel(w)
  {
    var tv := FindType(CounselingTypes, v).value;
    assert CounselingTypeLabel(v)[0] == tv.emoji[0];
    match FindType(CounselingTypes, w)
    case None =>
      assert CounselingTypeLabel(w) == UnknownTypeLabel;
    case Some(tw) =>
      assert tv in CounselingTypes && tw in CounselingTypes && tv.value != tw.value;
      assert CounselingTypeLabel(w)[0] == tw.emoji[0] != tv.emoji[0];
  }

  /** One consultation request. The creation time is not modelled. */
  datatype Ticket = Ticket(number: int, userId: int, username: string, kind: string)

  /** Why an action changed nothing; each is a message the bot sends back. */
  datatype Refusal =
    | PermissionDenied
    | AlreadyIssued(existing: Ticket)
    | NoWaitingConsultation
    | NoConsultationToComplete
    | TicketNotFound(number: int)
    | NotANumber

  /** Ticket numbers strictly increase from the front of the queue to the back. */
  ghost predicate StrictlyIncreasing(q: seq<Ticket>)
  {
    forall i, j :: 0 <= i < j < |q| ==> q[i].number < q[j].number
  }

  /** No requester holds two tickets. */
  ghost predicate UniqueRequesters(q: seq<Ticket>)
  {
    forall i, j :: 0 <= i < j < |q| ==> q[i].userId != q[j].userId
  }

  /**
   * Taking one ticket out of the queue keeps the others in order, so numbers still
   * increase, and leaves no ticket that was not there before.
   */
  lemma {:induction false} RemoveKeepsOrder(q: seq<Ticket>, k: nat)
    requires k < |q| && StrictlyIncreasing(q)
    ensures StrictlyIncreasing(q[..k] + q[k + 1..])
    ensures forall t :: t in q[..k] + q[k + 1..] ==> t in q
    ensures |q[..k] + q[k + 1..]| == |q| - 1
  {
    var r := q[..k] + q[k + 1..];
    forall i, j | 0 <= i < j < |r|
      ensures r[i].number < r[j].number
    {
      var i' := if i < k then i else i + 1;
      var j' := if j < k then j else j + 1;
      assert r[i] == q[i'] && r[j] == q[j'];
    }
    forall t | t in r
      ensures t in q
    {
      var i :| 0 <= i < |r| && r[i] == t;
      assert r[i] == q[if i < k then i else i + 1];
    }
  }

  // ---------------------------------------------------------------------------
  // The admin panel: a read-only projection of the queue and the flag.
  // ---------------------------------------------------------------------------

  /** The status tag shown in front of a ticket on the panel. */
  datatype Status = BeingServed | NextUp | Waiting

  datatype PanelEntry = PanelEntry(status: Status, number: int, typeLabel: string, username: string)

  /**
   * What the panel shows: the listed tickets, the count of tickets still waiting, the
   * number called next (`None` is shown as "none") and the number being served, if any.
   * An empty queue gives no entries, a count of 0 and neither number.
   */
  datatype PanelSummary = PanelSummary(
    entries: seq<PanelEntry>, waitingCount: int, nextNumber: Option<int>, servingNumber: Option<int>)

  /** The panel lists at most this many tickets. */
  const PanelLimit: nat := 10

  function EntryStatus(i: nat, inProgress: bool): Status
  {
    if i == 0 && inProgress then BeingServed
    else if i == 0 then NextUp
    else Waiting
  }

  function EntryFor(t: Ticket, i: nat, inProgress: bool): PanelEntry
  {
    PanelEntry(EntryStatus(i, inProgress), t.number, CounselingTypeLabel(t.kind), t.username)
  }

  /** The listed part of the panel: the first tickets of the queue, in queue order, tagged. */
  function PanelEntries(q: seq<Ticket>, inProgress: bool): (es: seq<PanelEntry>)
    ensures |es| == Min(PanelLimit, |q|) && |es| <= PanelLimit
    ensures forall i :: 0 <= i < |es| ==>
      es[i].number == q[i].number && es[i].username == q[i].username &&
      es[i].typeLabel == CounselingTypeLabel(q[i].kind) &&
      (es[i].status == BeingServed <==> i == 0 && inProgress) &&
      (es[i].status == NextUp <==> i == 0 && !inProgress) &&
      (es[i].status == Waiting <==> i > 0)
  {
    seq(Min(PanelLimit, |q|), i requires 0 <= i < Min(PanelLimit, |q|) => EntryFor(q[i], i, inProgress))
  }

  /** The number of the ticket at the head of `q`, if any. */
  function HeadNumber(q: seq<Ticket>): Option<int>
  {
    if q == [] then None else Some(q[0].number)
  }

  /** The whole panel summary for a queue and a flag. */
  function Project(q: seq<Ticket>, inProgress: bool): PanelSummary
  {
    if q == [] then PanelSummary([], 0, None, None)
    else
      PanelSummary(
        PanelEntries(q, inProgress),
        if inProgress then |q| - 1 else |q|,
        if inProgress then (if |q| > 1 then Some(q[1].number) else None) else Some(q[0].number),
        if inProgress then Some(q[0].number) else None)
  }

  /**
   * The waiting count leaves out exactly the ticket being served, so it is never negative
   * when the flag implies a non-empty queue; and a served ticket is always the head.
   */
  lemma ProjectWaitingCount(q: seq<Ticket>, inProgress: bool)
    requires inProgress ==> q != []
    ensures Project(q, inProgress).waitingCount >= 0
    ensures Project(q, inProgress).waitingCount + (if Project(q, inProgress).servingNumber.Some? then 1 else 0) == |q|
    ensures Project(q, inProgress).servingNumber.Some? ==> Project(q, inProgress).servingNumber == HeadNumber(q)
  {
  }

  /**
   * The announced next number is the one that will be "next up" once the current
   * consultation is completed (the head removed and the flag cleared), and, when nothing
   * is being served, the one a start would put in service.
   */
  lemma NextNumberIsUpcomingHead(q: seq<Ticket>, inProgress: bool)
    requires inProgress ==> q != []
    ensures inProgress ==> Project(q, true).nextNumber == Project(q[1..], false).nextNumber
    ensures !inProgress ==> Project(q, false).nextNumber == Project(q, true).servingNumber
    ensures !inProgress ==> Project(q, false).nextNumber == HeadNumber(q)
  {
  }

  /** The buttons of the admin panel. */
  datatype PanelButton = StartButton | CompleteButton | RefreshButton | CompleteSpecificButton

  /** The buttons the panel offers for a flag and a queue, in the order they are added. */
  function PanelButtons(inProgress: bool, q: seq<Ticket>): (bs: seq<PanelButton>)
    ensures StartButton in bs <==> !inProgress && q != []
    ensures CompleteButton in bs <==> inProgress && q != []
    ensures RefreshButton in bs && CompleteSpecificButton in bs
    ensures !(StartButton in bs && CompleteButton in bs)
  {
    (if !inProgress && q != [] then [StartButton] else [])
    + (if inProgress && q != [] then [CompleteButton] else [])
    + [RefreshButton, CompleteSpecificButton]
  }

  // ---------------------------------------------------------------------------
  // The queue state and the actions on it.
  // ---------------------------------------------------------------------------

  /** The counter, the waiting list and the in-progress flag, updated in place. */
  class TicketDesk {
    var ticketNumber: int
    var waitingQueue: seq<Ticket>
    var consultationInProgress: bool

    /**
     * The counter is ahead of every issued number, numbers increase along the queue,
     * and the flag is only set while there is a head ticket to serve.
     */
    ghost predicate Valid()
      reads this
    {
      1 <= ticketNumber &&
      StrictlyIncreasing(waitingQueue) &&
      (forall t :: t in waitingQueue ==> 1 <= t.number < ticketNumber) &&
      (consultationInProgress ==> waitingQueue != [])
    }

    /** The state at process start: counter 1, empty queue, nothing in progress. */
    constructor ()
      ensures Valid()
      ensures ticketNumber == 1 && waitingQueue == [] && !consultationInProgress
    {
      ticketNumber := 1;
      waitingQueue := [];
      consultationInProgress := false;
    }

    /**
     * The duplicate check made when a requester presses the ticket button: the first
     * ticket the requester already holds (the request is refused), or `None` (the type
     * menu is offered).
     */
    method IssueTicket(userId: int) returns (existing: Option<Ticket>)
      ensures existing.None? <==> forall i :: 0 <= i < |waitingQueue| ==> waitingQueue[i].userId != userId
      ensures existing.Some? ==>
        exists i :: 0 <= i < |waitingQueue| && waitingQueue[i] == existing.value && existing.value.userId == userId &&
          forall j :: 0 <= j < i ==> waitingQueue[j].userId != userId
    {
      var i := 0;
      while i < |waitingQueue|
        invariant 0 <= i <= |waitingQueue|
        invariant forall j :: 0 <= j < i ==> waitingQueue[j].userId != userId
      {
        if waitingQueue[i].userId == userId {
          return Some(waitingQueue[i]);
        }
        i := i + 1;
      }
      return None;
    }

    /**
     * The requester picked a counseling type: take the current number, advance the
     * counter and append the ticket at the back. There is no second duplicate check.
     */
    method SelectCounselingType(userId: int, username: string, kind: string) returns (number: int)
      requires Valid()
      modifies this
      ensures Valid()
      ensures number == old(ticketNumber) && ticketNumber == old(ticketNumber) + 1
      ensures waitingQueue == old(waitingQueue) + [Ticket(number, userId, username, kind)]
      ensures consultationInProgress == old(consultationInProgress)
    {
      number := ticketNumber;
      ticketNumber := ticketNumber + 1;
      waitingQueue := waitingQueue + [Ticket(number, userId, username, kind)];
    }

    /**
     * The two requester steps run back to back: refused with the existing ticket when
     * the requester already holds one, otherwise a new ticket is issued.
     */
    method RequestTicket(userId: int, username: string, kind: string) returns (r: Result<int, Refusal>)
      requires Valid()
      modifies this
      ensures Valid()
      ensures r.Failure? <==> exists i :: 0 <= i < |old(waitingQueue)| && old(waitingQueue)[i].userId == userId
      ensures r.Failure? ==>
        r.error.AlreadyIssued? && r.error.existing in old(waitingQueue) && r.error.existing.userId == userId &&
        ticketNumber == old(ticketNumber) && waitingQueue == old(waitingQueue) &&
        consultationInProgress == old(consultationInProgress)
      ensures r.Success? ==>
        r.value == old(ticketNumber) && ticketNumber == old(ticketNumber) + 1 &&
        waitingQueue == old(waitingQueue) + [Ticket(r.value, userId, username, kind)] &&
        consultationInProgress == old(consultationInProgress)
      ensures UniqueRequesters(old(waitingQueue)) ==> UniqueRequesters(waitingQueue)
    {
      var existing := IssueTicket(userId);
      if existing.Some? {
        return Failure(AlreadyIssued(existing.value));
      }
      var number := SelectCounselingType(userId, username, kind);
      return Success(number);
    }

    /** The admin starts the consultation of the head ticket. */
    method StartConsultation(isAdmin: bool) returns (r: Result<Ticket, Refusal>)
      requires Valid()
      modifies this
      ensures Valid()
      ensures !isAdmin ==> r == Failure(PermissionDenied)
      ensures isAdmin && old(waitingQueue) == [] ==> r == Failure(NoWaitingConsultation)
      ensures r.Success? <==> isAdmin && old(waitingQueue) != []
      ensures r.Failure? ==> consultationInProgress == old(consultationInProgress)
      ensures r.Success? ==> r.value == old(waitingQueue)[0] && consultationInProgress
      ensures waitingQueue == old(waitingQueue) && ticketNumber == old(ticketNumber)
    {
      if !isAdmin {
        return Failure(PermissionDenied);
      }
      if waitingQueue == [] {
        return Failure(NoWaitingConsultation);
      }
      consultationInProgress := true;
      return Success(waitingQueue[0]);
    }

    /** The admin completes the head ticket: it leaves the queue and the flag is cleared. */
    method CompleteConsultation(isAdmin: bool) returns (r: Result<Ticket, Refusal>)
      requires Valid()
      modifies this
      ensures Valid()
      ensures !isAdmin ==> r == Failure(PermissionDenied)
      ensures isAdmin && old(waitingQueue) == [] ==> r == Failure(NoConsultationToComplete)
      ensures r.Success? <==> isAdmin && old(waitingQueue) != []
      ensures r.Failure? ==>
        waitingQueue == old(waitingQueue) && consultationInProgress == old(consultationInProgress)
      ensures r.Success? ==>
        r.value == old(waitingQueue)[0] && waitingQueue == old(waitingQueue)[1..] && !consultationInProgress
      ensures ticketNumber == old(ticketNumber)
    {
      if !isAdmin {
        return Failure(PermissionDenied);
      }
      if waitingQueue == [] {
        return Failure(NoConsultationToComplete);
      }
      var completed := waitingQueue[0];
      waitingQueue := waitingQueue[1..];
      consultationInProgress := false;
      return Success(completed);
    }

    /** The position of the first ticket with number `n`, or -1 when there is none. */
    method IndexOfTicket(n: int) returns (index: int)
      ensures -1 <= index < |waitingQueue|
      ensures index == -1 <==> forall i :: 0 <= i < |waitingQueue| ==> waitingQueue[i].number != n
      ensures index >= 0 ==>
        waitingQueue[index].number == n && forall j :: 0 <= j < index ==> waitingQueue[j].number != n
    {
      index := 0;
      while index < |waitingQueue|
        invariant 0 <= index <= |waitingQueue|
        invariant forall j :: 0 <= j < index ==> waitingQueue[j].number != n
      {
        if waitingQueue[index].number == n {
          return;
        }
        index := index + 1;
      }
      index := -1;
    }

    /**
     * Complete the ticket with number `n`, wherever it stands. Only that ticket leaves
     * the queue; the flag is cleared when it was the head and kept otherwise. The chat
     * command that does this has no administrator check.
     */
    method CompleteByNumber(n: int) returns (r: Result<Ticket, Refusal>)
      requires Valid()
      modifies this
      ensures Valid()
      ensures r.Failure? <==> forall i :: 0 <= i < |old(waitingQueue)| ==> old(waitingQueue)[i].number != n
      ensures r.Failure? ==>
        r == Failure(TicketNotFound(n)) &&
        waitingQueue == old(waitingQueue) && consultationInProgress == old(consultationInProgress)
      ensures r.Success? ==>
        exists i :: 0 <= i < |old(waitingQueue)| && old(waitingQueue)[i].number == n &&
          r.value == old(waitingQueue)[i] &&
          waitingQueue == old(waitingQueue)[..i] + old(waitingQueue)[i + 1..] &&
          consultationInProgress == (old(consultationInProgress) && i != 0)
      ensures ticketNumber == old(ticketNumber)
    {
      var index := IndexOfTicket(n);
      if index == -1 {
        return Failure(TicketNotFound(n));
      }
      if index == 0 {
        consultationInProgress := false;
      }
      var completed := waitingQueue[index];
      RemoveKeepsOrder(waitingQueue, index);
      waitingQueue := waitingQueue[..index] + waitingQueue[index + 1..];
      return Success(completed);
    }

    /**
     * The admin presses "complete a specific number": refused for a non-administrator
     * or an empty queue; otherwise the number form is opened (`None`).
     */
    method OpenCompleteSpecific(isAdmin: bool) returns (refusal: Option<Refusal>)
      ensures !isAdmin ==> refusal == Some(PermissionDenied)
      ensures isAdmin && waitingQueue == [] ==> refusal == Some(NoWaitingConsultation)
      ensures refusal.None? <==> isAdmin && waitingQueue != []
    {
      if !isAdmin {
        return Some(PermissionDenied);
      }
      if waitingQueue == [] {
        return Some(NoWaitingConsultation);
      }
      return None;
    }

    /**
     * The number form is submitted. `input` is the typed text read as an integer, or
     * `None` when it is not one; the form itself does not check the administrator.
     */
    method SubmitCompleteSpecific(input: Option<int>) returns (r: Result<Ticket, Refusal>)
      requires Valid()
      modifies this
      ensures Valid()
      ensures input.None? ==> r == Failure(NotANumber)
      ensures r.Failure? ==>
        waitingQueue == old(waitingQueue) && consultationInProgress == old(consultationInProgress)
      ensures r.Success? ==>
        input.Some? && r.value.number == input.value &&
        exists i :: 0 <= i < |old(waitingQueue)| && old(waitingQueue)[i] == r.value &&
          waitingQueue == old(waitingQueue)[..i] + old(waitingQueue)[i + 1..] &&
          consultationInProgress == (old(consultationInProgress) && i != 0)
      ensures input.Some? && r.Failure? ==> r == Failure(TicketNotFound(input.value))
      ensures input.Some? ==>
        (r.Failure? <==> forall i :: 0 <= i < |old(waitingQueue)| ==> old(waitingQueue)[i].number != input.value)
      ensures ticketNumber == old(ticketNumber)
    {
      if input.None? {
        return Failure(NotANumber);
      }
      r := CompleteByNumber(input.value);
    }

    /** The admin empties the queue, restarts numbering at 1 and clears the flag. */
    method Reset(isAdmin: bool) returns (r: Result<nat, Refusal>)
      requires Valid()
      modifies this
      ensures Valid()
      ensures r.Success? <==> isAdmin
      ensures r.Failure? ==> r.error == PermissionDenied
      ensures r.Failure? ==>
        ticketNumber == old(ticketNumber) && waitingQueue == old(waitingQueue) &&
        consultationInProgress == old(consultationInProgress)
      ensures r.Success? ==>
        r.value == |old(waitingQueue)| && waitingQueue == [] && ticketNumber == 1 && !consultationInProgress
    {
      if !isAdmin {
        return Failure(PermissionDenied);
      }
      var previousCount := |waitingQueue|;
      waitingQueue := [];
      ticketNumber := 1;
      consultationInProgress := false;
      return Success(previousCount);
    }

    /** The panel summary as the panel update builds it, line by line. */
    method RenderPanel() returns (p: PanelSummary)
      requires Valid()
      ensures p == Project(waitingQueue, consultationInProgress)
      ensures p.waitingCount >= 0
    {
      if waitingQueue == [] {
        return PanelSummary([], 0, None, None);
      }
      var shown := Min(PanelLimit, |waitingQueue|);
      var entries: seq<PanelEntry> := [];
      for i := 0 to shown
        invariant |entries| == i
        invariant forall k :: 0 <= k < i ==> entries[k] == EntryFor(waitingQueue[k], k, consultationInProgress)
      {
        var status := if i == 0 && consultationInProgress then BeingServed
                      else if i == 0 then NextUp
                      else Waiting;
        var t := waitingQueue[i];
        entries := entries + [PanelEntry(status, t.number, CounselingTypeLabel(t.kind), t.username)];
      }
      var nextNumber: Option<int>;
      if consultationInProgress {
        nextNumber := if |waitingQueue| > 1 then Some(waitingQueue[1].number) else None;
      } else {
        nextNumber := Some(waitingQueue[0].number);
      }
      var waiting := if consultationInProgress then |waitingQueue| - 1 else |waitingQueue|;
      var serving := if consultationInProgress then Some(waitingQueue[0].number) else None;
      p := PanelSummary(entries, waiting, nextNumber, serving);
    }
  }

  /**
   * A sample session: three requests, a start, a completion of the head, a completion
   * by number further back, and a reset.
   */
  method Walkthrough()
  {
    var desk := new TicketDesk();
    WalkthroughRequests(desk);
    WalkthroughStart(desk);
    WalkthroughCompletions(desk);
  }

  /** The first part of the sample session: three requesters on a fresh desk get tickets 1, 2 and 3. */
  method WalkthroughRequests(desk: TicketDesk)
    requires desk.Valid() && desk.ticketNumber == 1 && desk.waitingQueue == [] && !desk.consultationInProgress
    modifies desk
    ensures desk.Valid() && !desk.consultationInProgress
    ensures desk.waitingQueue == [Ticket(1, 100, "A", "career"), Ticket(2, 200, "B", "study"), Ticket(3, 300, "C", "project")]
  {
    var a := desk.RequestTicket(100, "A", "career");
    assert a == Success(1);
    var b := desk.RequestTicket(200, "B", "study");
    assert b == Success(2);
    var c := desk.RequestTicket(300, "C", "project");
    assert c == Success(3);
    var panel := desk.RenderPanel();
    assert panel.nextNumber == Some(1) && panel.waitingCount == 3;
  }

  /** The start of service in the sample session: ticket 1 is called; 2 and 3 still wait. */
  method WalkthroughStart(desk: TicketDesk)
    requires desk.Valid() && !desk.consultationInProgress
    requires desk.waitingQueue == [Ticket(1, 100, "A", "career"), Ticket(2, 200, "B", "study"), Ticket(3, 300, "C", "project")]
    modifies desk
    ensures desk.Valid() && desk.consultationInProgress
    ensures desk.waitingQueue == [Ticket(1, 100, "A", "career"), Ticket(2, 200, "B", "study"), Ticket(3, 300, "C", "project")]
  {
    var started := desk.StartConsultation(true);
    assert started == Success(Ticket(1, 100, "A", "career"));
    var panel := desk.RenderPanel();
    assert panel.nextNumber == Some(2) && panel.waitingCount == 2 && panel.servingNumber == Some(1);
  }

  /** The second half of the sample session, from ticket 1 in service with 2 and 3 waiting. */
  method WalkthroughCompletions(desk: TicketDesk)
    requires desk.Valid() && desk.consultationInProgress
    requires desk.waitingQueue == [Ticket(1, 100, "A", "career"), Ticket(2, 200, "B", "study"), Ticket(3, 300, "C", "project")]
    modifies desk
    ensures desk.Valid() && !desk.consultationInProgress
    ensures desk.waitingQueue == [Ticket(1, 400, "D", "other")] && desk.ticketNumber == 2
  {
    var done := desk.CompleteConsultation(true);
    assert done.Success? && done.value.number == 1;
    assert desk.waitingQueue == [Ticket(2, 200, "B", "study"), Ticket(3, 300, "C", "project")];
    assert !desk.consultationInProgress;

    assert desk.waitingQueue[1].number == 3;
    var specific := desk.CompleteByNumber(3);
    assert specific.Success? && desk.waitingQueue == [Ticket(2, 200, "B", "study")];
    assert !desk.consultationInProgress;

    var cleared := desk.Reset(true);
    assert cleared == Success(1) && desk.waitingQueue == [] && desk.ticketNumber == 1;
    var next := desk.RequestTicket(400, "D", "other");
    assert next == Success(1);
  }

  /**
   * A requester who already holds a ticket is refused with that ticket, and the queue
   * keeps its one ticket.
   */
  method DuplicateRequest() returns (second: Result<int, Refusal>, queued: seq<Ticket>)
    ensures second == Failure(AlreadyIssued(Ticket(1, 100, "A", "career")))
    ensures queued == [Ticket(1, 100, "A", "career")]
  {
    var desk := new TicketDesk();
    var first := desk.RequestTicket(100, "A", "career");
    assert desk.waitingQueue == [Ticket(1, 100, "A", "career")];
    second := desk.RequestTicket(100, "A", "study");
    assert desk.waitingQueue[0].userId == 100;
    queued := desk.waitingQueue;
  }
}
