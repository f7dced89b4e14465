/** The coalesced notification of src/spicy_regs/catalog_refresh_request.py: any number of processes notify, read and
    acknowledge one control file under its file lock, and any of them may die at any point. */
module RefreshRequest {
  import opened Basics

  type Process = nat

  /** The control's content; `id` is a fresh uuid. An empty publication is never stored. */
  datatype Request = Request(id: nat, root: string, publication: Option<string>)

  /** One call, between taking the lock and giving it back. */
  datatype Call =
    | Notifying(id: nat, root: string, given: string)
    | NotifyRead(id: nat, root: string, given: string, previous: Option<Request>)
    | NotifyWritten(given: string, request: Request)
    | Reading(root: string)
    | Acknowledging(root: string, token: string)
    | AckRead(root: string, token: string, item: Option<Request>)
    | Finished

  /** What happened to the control, in order. */
  datatype Event = Replaced(request: Request, given: string) | Seen(token: string) | Deleted(token: string)

  /** `sha` names a request by the digest of its bytes. `ids` are the uuids handed out so far. */
  datatype State = State(control: Option<Request>, holder: Option<Process>, calls: map<Process, Call>,
                         ids: set<nat>, history: seq<Event>)

  const START := State(None, None, map[], {}, [])

  datatype Step =
    | Notify(p: Process, id: nat, root: string, given: string)
    | Pending(p: Process, root: string)
    | Acknowledge(p: Process, root: string, token: string)
    | Proceed(p: Process)
    | Die(p: Process)

  /** publicationSha256 of the new event if it is not empty, else the pending one's. */
  function Carried(given: string, previous: Option<Request>): Option<string> {
    if given != "" then Some(given) else if previous.Some? then previous.value.publication else None
  }

  predicate OtherRoot(item: Option<Request>, root: string) {
    item.Some? && item.value.root != root
  }

  function Begin(s: State, p: Process, call: Call): State {
    s.(holder := Some(p), calls := s.calls[p := call])
  }

  function Move(s: State, p: Process, call: Call): State {
    s.(calls := s.calls[p := call])
  }

  /** The lock is given back when the call ends, and by the system when its process dies. */
  function Release(s: State, p: Process): State {
    s.(holder := None, calls := s.calls - {p})
  }

  /** The next atomic step of a call that holds the lock. */
  function Advance(sha: Request -> string, s: State, p: Process): State
    requires p in s.calls
  {
    match s.calls[p]
    case Notifying(id, root, given) => Move(s, p, NotifyRead(id, root, given, s.control))
    case NotifyRead(id, root, given, previous) =>
      if OtherRoot(previous, root) then Move(s, p, Finished)
      else Move(s, p, NotifyWritten(given, Request(id, root, Carried(given, previous))))
    case NotifyWritten(given, request) =>
      Move(s.(control := Some(request), history := s.history + [Replaced(request, given)]), p, Finished)
    case Reading(root) =>
      if s.control.None? || OtherRoot(s.control, root) then Move(s, p, Finished)
      else Move(s.(history := s.history + [Seen(sha(s.control.value))]), p, Finished)
    case Acknowledging(root, token) => Move(s, p, AckRead(root, token, s.control))
    case AckRead(root, token, item) =>
      if item.None? || OtherRoot(item, root) || sha(item.value) != token then Move(s, p, Finished)
      else Move(s.(control := None, history := s.history + [Deleted(token)]), p, Finished)
    case Finished => Release(s, p)
  }

  /** A call begins by taking the free lock; a consumer acknowledges only a token some read returned. */
  function Next(sha: Request -> string, s: State, step: Step): State {
    match step
    case Notify(p, id, root, given) =>
      if s.holder.Some? || p in s.calls || id in s.ids then s
      else Begin(s, p, Notifying(id, root, given)).(ids := s.ids + {id})
    case Pending(p, root) => if s.holder.Some? || p in s.calls then s else Begin(s, p, Reading(root))
    case Acknowledge(p, root, token) =>
      if s.holder.Some? || p in s.calls || Seen(token) !in s.history then s else Begin(s, p, Acknowledging(root, token))
    case Proceed(p) => if p in s.calls then Advance(sha, s, p) else s
    case Die(p) => if p in s.calls then Release(s, p) else s
  }

  function Run(sha: Request -> string, steps: seq<Step>): State {
    if steps == [] then START else Next(sha, Run(sha, steps[..|steps| - 1]), steps[|steps| - 1])
  }

  // ----- the lock makes each call's read current -----

  ghost predicate Exclusive(s: State) {
    && (forall p :: p in s.calls <==> s.holder == Some(p))
    && (s.holder.Some? ==> CallFits(s, s.calls[s.holder.value]))
  }

  ghost predicate CallFits(s: State, call: Call) {
    match call
    case Notifying(id, _, _) => id in s.ids && !Issued(s.history, id)
    case NotifyRead(id, _, _, previous) => id in s.ids && !Issued(s.history, id) && previous == s.control
    case NotifyWritten(given, request) =>
      request.id in s.ids && !Issued(s.history, request.id) && request.publication == Carried(given, s.control)
    case Reading(_) => true
    case Acknowledging(_, token) => Seen(token) in s.history
    case AckRead(_, token, item) => Seen(token) in s.history && item == s.control
    case Finished => true
  }

  /** Some replacement carried this id. */
  ghost predicate Issued(history: seq<Event>, id: nat) {
    exists i :: 0 <= i < |history| && history[i].Replaced? && history[i].request.id == id
  }

  // ----- what the history says -----

  /** The control after these events. */
  function Control(history: seq<Event>): Option<Request> {
    if history == [] then None
    else
      match history[|history| - 1]
      case Replaced(request, _) => Some(request)
      case Deleted(_) => None
      case Seen(_) => Control(history[..|history| - 1])
  }

  /** The latest publication that was not empty since the control was last absent. */
  function LatestPublication(history: seq<Event>): Option<string> {
    if history == [] then None
    else
      var before := LatestPublication(history[..|history| - 1]);
      match history[|history| - 1]
      case Replaced(_, given) => if given != "" then Some(given) else before
      case Deleted(_) => None
      case Seen(_) => before
  }

  /** Every id is replaced in once, from those handed out; a token is seen only while its request is the control, and
      deleted only so and after it was seen. */
  ghost predicate Faithful(sha: Request -> string, ids: set<nat>, history: seq<Event>) {
    history == [] ||
    (var before, last := history[..|history| - 1], history[|history| - 1];
     && Faithful(sha, ids, before)
     && match last
        case Replaced(request, _) => request.id in ids && !Issued(before, request.id)
        case Seen(token) => Control(before).Some? && token == sha(Control(before).value)
        case Deleted(token) => Control(before).Some? && token == sha(Control(before).value) && Seen(token) in before)
  }

  ghost predicate Inv(sha: Request -> string, s: State) {
    && Exclusive(s) && Faithful(sha, s.ids, s.history) && s.control == Control(s.history)
    && (s.control.Some? ==> s.control.value.publication == LatestPublication(s.history))
    && (s.control.None? ==> LatestPublication(s.history).None?)
  }

  lemma Append(history: seq<Event>, e: Event)
    ensures (history + [e])[..|history|] == history
    ensures forall id :: Issued(history + [e], id) ==> Issued(history, id) || (e.Replaced? && e.request.id == id)
  {
    assert (history + [e])[..|history|] == history;
    forall id | Issued(history + [e], id) && !(e.Replaced? && e.request.id == id)
      ensures Issued(history, id)
    {
      var i :| 0 <= i < |history + [e]| && (history + [e])[i].Replaced? && (history + [e])[i].request.id == id;
      assert history[i].Replaced? && history[i].request.id == id;
    }
  }

  lemma {:induction false} MoreIds(sha: Request -> string, ids: set<nat>, more: set<nat>, history: seq<Event>)
    requires Faithful(sha, ids, history) && ids <= more
    ensures Faithful(sha, more, history)
  {
    if history != [] {
      MoreIds(sha, ids, more, history[..|history| - 1]);
    }
  }

  lemma {:induction false} IssuedAreIds(sha: Request -> string, ids: set<nat>, history: seq<Event>, id: nat)
    requires Faithful(sha, ids, history) && Issued(history, id)
    ensures id in ids
  {
    var i :| 0 <= i < |history| && history[i].Replaced? && history[i].request.id == id;
    if i < |history| - 1 {
      assert history[..|history| - 1][i] == history[i];
      IssuedAreIds(sha, ids, history[..|history| - 1], id);
    }
  }

  lemma ReplaceKeepsInv(sha: Request -> string, s: State, p: Process)
    requires Inv(sha, s) && p in s.calls && s.calls[p].NotifyWritten?
    ensures Inv(sha, Advance(sha, s, p))
  {
    var NotifyWritten(given, request) := s.calls[p];
    Append(s.history, Replaced(request, given));
  }

  lemma SeenKeepsInv(sha: Request -> string, s: State, p: Process)
    requires Inv(sha, s) && p in s.calls && s.calls[p].Reading?
    ensures Inv(sha, Advance(sha, s, p))
  {
    if s.control.Some? {
      Append(s.history, Seen(sha(s.control.value)));
    }
  }

  lemma DeleteKeepsInv(sha: Request -> string, s: State, p: Process)
    requires Inv(sha, s) && p in s.calls && s.calls[p].AckRead?
    ensures Inv(sha, Advance(sha, s, p))
  {
    Append(s.history, Deleted(s.calls[p].token));
  }

  lemma AdvanceKeepsInv(sha: Request -> string, s: State, p: Process)
    requires Inv(sha, s) && p in s.calls
    ensures Inv(sha, Advance(sha, s, p))
  {
    match s.calls[p]
    case NotifyWritten(_, _) => ReplaceKeepsInv(sha, s, p);
    case Reading(_) => SeenKeepsInv(sha, s, p);
    case AckRead(_, _, _) => DeleteKeepsInv(sha, s, p);
    case _ =>
  }

  lemma StepKeepsInv(sha: Request -> string, s: State, step: Step)
    requires Inv(sha, s)
    ensures Inv(sha, Next(sha, s, step))
  {
    match step
    case Notify(p, id, root, given) =>
      MoreIds(sha, s.ids, s.ids + {id}, s.history);
      if id !in s.ids && Issued(s.history, id) {
        IssuedAreIds(sha, s.ids, s.history, id);
      }
    case Proceed(p) =>
      if p in s.calls {
        AdvanceKeepsInv(sha, s, p);
      }
    case _ =>
  }

  lemma {:induction false} RunKeepsInv(sha: Request -> string, steps: seq<Step>)
    ensures Inv(sha, Run(sha, steps))
  {
    if steps != [] {
      RunKeepsInv(sha, steps[..|steps| - 1]);
      StepKeepsInv(sha, Run(sha, steps[..|steps| - 1]), steps[|steps| - 1]);
    }
  }

  // ----- no notification is lost -----

  /** The notification at i was replaced in, later read by a consumer, and that very token deleted after the read. */
  ghost predicate Served(history: seq<Event>, i: nat) {
    exists j, k :: i < j < k < |history| && history[j].Seen? && history[k] == Deleted(history[j].token)
  }

  /** While the control is present it is the last replacement; everything seen since carries its token. */
  lemma {:induction false} SeenAfterReplacement(sha: Request -> string, ids: set<nat>, history: seq<Event>, i: nat, j: nat)
    requires Faithful(sha, ids, history) && Control(history).Some?
    requires i < |history| && history[i].Replaced? && j < |history| && history[j] == Seen(sha(Control(history).value))
    requires forall x, y :: sha(x) == sha(y) ==> x == y
    ensures i < j
    decreases |history|
  {
    var before, last := history[..|history| - 1], history[|history| - 1];
    match last
    case Replaced(request, _) =>
      if j < |before| {
        SeenRequestIssued(sha, ids, before, j, request);
      }
    case Seen(token) =>
      if i < |history| - 1 && j < |history| - 1 {
        SeenAfterReplacement(sha, ids, before, i, j);
      }
    case Deleted(_) =>
  }

  lemma SeenRequestIssued(sha: Request -> string, ids: set<nat>, history: seq<Event>, j: nat, request: Request)
    requires Faithful(sha, ids, history) && j < |history| && history[j] == Seen(sha(request))
    requires forall x, y :: sha(x) == sha(y) ==> x == y
    ensures Issued(history, request.id)
  {
    SeenMeansIssued(sha, ids, history, j);
  }

  /** What was seen had been replaced in before. */
  lemma {:induction false} SeenMeansIssued(sha: Request -> string, ids: set<nat>, history: seq<Event>, j: nat)
    requires Faithful(sha, ids, history) && j < |history| && history[j].Seen?
    ensures exists m :: 0 <= m < j && history[m].Replaced? && sha(history[m].request) == history[j].token
    decreases |history|
  {
    var before := history[..|history| - 1];
    if j < |history| - 1 {
      SeenMeansIssued(sha, ids, before, j);
      var m :| 0 <= m < j && before[m].Replaced? && sha(before[m].request) == before[j].token;
      assert history[m] == before[m];
    } else {
      ControlWasReplaced(before);
      var m :| 0 <= m < |before| && before[m].Replaced? && Control(before) == Some(before[m].request);
      assert history[m] == before[m];
    }
  }

  lemma {:induction false} ControlWasReplaced(history: seq<Event>)
    requires Control(history).Some?
    ensures exists m :: 0 <= m < |history| && history[m].Replaced? && Control(history) == Some(history[m].request)
  {
    if history[|history| - 1].Seen? {
      ControlWasReplaced(history[..|history| - 1]);
      var before := history[..|history| - 1];
      var m :| 0 <= m < |before| && before[m].Replaced? && Control(before) == Some(before[m].request);
      assert history[m] == before[m];
    }
  }

  /** Whenever the control is absent, every earlier replacement has been served. */
  lemma {:induction false} AbsentMeansServed(sha: Request -> string, ids: set<nat>, history: seq<Event>, i: nat)
    requires Faithful(sha, ids, history) && Control(history).None? && i < |history| && history[i].Replaced?
    requires forall x, y :: sha(x) == sha(y) ==> x == y
    ensures Served(history, i)
    decreases |history|
  {
    var before, last := history[..|history| - 1], history[|history| - 1];
    match last
    case Deleted(token) =>
      assert before[i] == history[i];
      var j :| 0 <= j < |before| && before[j] == Seen(token);
      SeenAfterReplacement(sha, ids, before, i, j);
      assert history[j] == Seen(token) && history[|history| - 1] == Deleted(token);
    case _ =>
  }

  /** Under every interleaving and any deaths: when no request is pending, each notification that took effect was
      afterwards read by a consumer whose token was acknowledged; a pending request carries the latest publication given
      since the control was last absent. */
  lemma NoNotificationLost(sha: Request -> string, steps: seq<Step>)
    requires forall x, y :: sha(x) == sha(y) ==> x == y
    ensures var s := Run(sha, steps);
      && (s.control.None? ==> forall i :: 0 <= i < |s.history| && s.history[i].Replaced? ==> Served(s.history, i))
      && (s.control.Some? ==> s.control.value.publication == LatestPublication(s.history))
  {
    var s := Run(sha, steps);
    RunKeepsInv(sha, steps);
    if s.control.None? {
      forall i | 0 <= i < |s.history| && s.history[i].Replaced?
        ensures Served(s.history, i)
      {
        AbsentMeansServed(sha, s.ids, s.history, i);
      }
    }
  }

  /** A death changes nothing but the lock; only a notifier's last step puts a whole new request in place of the old one,
      and only an acknowledgement of exactly the present request removes it. */
  lemma ControlChangesWhole(sha: Request -> string, steps: seq<Step>, step: Step)
    ensures var s := Run(sha, steps);
      var after := Next(sha, s, step);
      || after.control == s.control
      || (step.Proceed? && step.p in s.calls && s.calls[step.p].NotifyWritten?
          && after.control == Some(s.calls[step.p].request)
          && s.calls[step.p].request.publication == Carried(s.calls[step.p].given, s.control))
      || (step.Proceed? && step.p in s.calls && s.calls[step.p].AckRead?
          && after.control.None? && s.control.Some? && sha(s.control.value) == s.calls[step.p].token)
  {
    RunKeepsInv(sha, steps);
  }

  // ----- the operations, one at a time -----

  datatype Outcome = SignalPending | SignalFailed
  datatype Answer = AlreadyAcknowledged | NewerPending(id: nat) | Acknowledged(id: nat) | WrongArchive

  /** Where an exception meets notify: before the control is replaced (a full disk, a bad path), or after it, when the
      directory is synchronised. */
  datatype Fault = NoFault | BeforeReplacing | AfterReplacing

  class ControlFile {
    const sha: Request -> string
    var control: Option<Request>

    constructor (sha: Request -> string)
      ensures control.None? && this.sha == sha
    {
      this.sha := sha;
      control := None;
    }

    /** notify: whatever goes wrong, the caller only gets a status; a failed signal may still have left its request. */
    method Notify(id: nat, root: string, given: string, fault: Fault) returns (r: Outcome)
      modifies this
      ensures r == SignalFailed <==> (old(control).Some? && old(control).value.root != root) || !fault.NoFault?
      ensures control == if (old(control).Some? && old(control).value.root != root) || fault.BeforeReplacing? then old(control)
                         else Some(Request(id, root, if given != "" then Some(given)
                                                     else if old(control).None? then None else old(control).value.publication))
    {
      var previous := control;
      if (previous.Some? && previous.value.root != root) || fault.BeforeReplacing? {
        return SignalFailed;
      }
      var publication := if given != "" then Some(given) else if previous.Some? then previous.value.publication else None;
      control := Some(Request(id, root, publication));
      r := if fault.AfterReplacing? then SignalFailed else SignalPending;
    }

    /** pending: None is an archive mismatch; Some(None) an absent control. */
    method Pending(root: string) returns (r: Option<Option<(Request, string)>>)
      ensures r.None? <==> control.Some? && control.value.root != root
      ensures r.Some? ==> (r.value.Some? <==> control.Some?)
      ensures r.Some? && r.value.Some? ==> control == Some(r.value.value.0) && r.value.value.1 == sha(control.value)
    {
      if control.None? {
        return Some(None);
      }
      if control.value.root != root {
        return None;
      }
      r := Some(Some((control.value, sha(control.value))));
    }

    method Acknowledge(root: string, expected: string) returns (r: Answer)
      modifies this
      ensures control == if r.Acknowledged? then None else old(control)
      ensures r == if old(control).None? then AlreadyAcknowledged
                   else if (old(control).Some? && old(control).value.root != root) then WrongArchive
                   else if sha(old(control).value) != expected then NewerPending(old(control).value.id)
                   else Acknowledged(old(control).value.id)
    {
      if control.None? {
        return AlreadyAcknowledged;
      }
      var item := control.value;
      if item.root != root {
        return WrongArchive;
      }
      if sha(item) != expected {
        return NewerPending(item.id);
      }
      control := None;
      r := Acknowledged(item.id);
    }
  }

  /** notify as the class states it is the machine's notify, step after step, without interruption. */
  lemma UninterruptedNotify(sha: Request -> string, s: State, p: Process, id: nat, root: string, given: string)
    requires s.holder.None? && p !in s.calls && id !in s.ids
    ensures var s1 := Next(sha, s, Notify(p, id, root, given));
      var s3 := Next(sha, Next(sha, s1, Proceed(p)), Proceed(p));
      && (s.control.Some? && s.control.value.root != root ==> s3.control == s.control && s3.calls[p] == Finished)
      && (s.control.None? || s.control.value.root == root ==>
            Next(sha, s3, Proceed(p)).control == Some(Request(id, root, Carried(given, s.control))))
  {
  }

  /** A process that dies gives the lock back and leaves control and history as they were. */
  lemma DeathReleases(sha: Request -> string, steps: seq<Step>, p: Process)
    requires p in Run(sha, steps).calls
    ensures var s, after := Run(sha, steps), Next(sha, Run(sha, steps), Die(p));
      s.holder == Some(p) && after.holder.None? && after.calls == s.calls - {p}
      && after.control == s.control && after.history == s.history
  {
    RunKeepsInv(sha, steps);
  }

  /** pending: the reader sees the token of the request that is there, and the control stays. */
  lemma UninterruptedPending(sha: Request -> string, s: State, p: Process, root: string)
    requires s.holder.None? && p !in s.calls
    ensures var s2 := Next(sha, Next(sha, s, Pending(p, root)), Proceed(p));
      && s2.control == s.control && p in s2.calls && s2.calls[p] == Finished
      && s2.history == s.history + (if s.control.Some? && s.control.value.root == root then [Seen(sha(s.control.value))] else [])
  {
  }

  /** acknowledge likewise. */
  lemma UninterruptedAcknowledge(sha: Request -> string, s: State, p: Process, root: string, token: string)
    requires s.holder.None? && p !in s.calls && Seen(token) in s.history
    ensures var s3 := Next(sha, Next(sha, Next(sha, s, Acknowledge(p, root, token)), Proceed(p)), Proceed(p));
      s3.control == if s.control.None? || s.control.value.root != root || sha(s.control.value) != token then s.control else None
  {
  }
}
