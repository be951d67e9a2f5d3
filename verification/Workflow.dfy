/** The workflow graph: which node runs after which, with interrupts for human replies. */
module Workflow {
  import opened Options

  datatype Plan = NoPlan | Task(text: string) | Artifact(id: int)

  datatype ExecutorOutput = NoOutput | Legacy(text: string) | Report(success: bool)

  /** Feedback after normalization at the gate. */
  datatype Feedback = NoFeedback | Approved | RejectedFor(reason: string)

  /** The part of the graph state that routing reads. */
  datatype State = State(task: string, plan: Plan, output: ExecutorOutput, feedback: Feedback, escalated: bool)

  datatype Node = Planner | Supervisor | Architect | HumanGate | Executor | ToolDispatcher

  datatype Route = ToArchitect | ToExecutor | ToTool | ToEnd

  /** `route_from_state`, condition by condition. */
  function RouteFromState(s: State): Route {
    if s.output.Report? && s.output.success then ToEnd
    else if s.feedback == Approved then ToExecutor
    else if s.feedback.RejectedFor? then ToArchitect
    else if s.output.Legacy? then ToEnd
    else if s.plan.Artifact? then ToEnd
    else if s.escalated then ToArchitect
    else ToTool
  }

  /** The same rule by outcome, in every state. */
  lemma RoutesByOutcome(s: State)
    ensures RouteFromState(s) == ToExecutor <==> s.output != Report(true) && s.feedback == Approved
    ensures RouteFromState(s) == ToArchitect <==>
              && s.output != Report(true)
              && (s.feedback.RejectedFor? || (s.feedback == NoFeedback && !s.output.Legacy? && !s.plan.Artifact? && s.escalated))
    ensures RouteFromState(s) == ToTool <==>
              s.output != Report(true) && !s.output.Legacy? && s.feedback == NoFeedback && !s.plan.Artifact? && !s.escalated
  {
  }

  /** What the outside world answers while a node runs: models, tools and people. */
  datatype Answer =
    | Brief(id: int)             // the architect's plan
    | Executed(success: bool)    // the executor's report
    | ToolRan                    // the dispatcher ran a tool
    | Escalates                  // the dispatcher hands over to the architect
    | Reply(feedback: Feedback)  // what the human said, if the node is resumed with a reply
    | NoReplyYet                 // the node asks and waits
    | Raises

  datatype Step = Goto(state: State, next: Node) | Finished(state: State) | Waiting(state: State) | Failed(state: State)

  /** One node: its state update and where the graph goes. Planner and supervisor ignore the answer; in
      the other nodes an answer that does not fit counts as an exception. */
  function RunNode(node: Node, s: State, a: Answer): Step {
    match node
    case Planner => Goto(if s.plan.Artifact? then s else s.(plan := Task(s.task)), Supervisor)
    case Supervisor =>
      (match RouteFromState(s)
       case ToArchitect => Goto(s, Architect)
       case ToExecutor => Goto(s, Executor)
       case ToTool => Goto(s, ToolDispatcher)
       case ToEnd => Finished(s))
    case Architect => if a.Brief? then Goto(s.(plan := Artifact(a.id)), HumanGate) else Failed(s)
    case HumanGate =>
      if !s.plan.Artifact? then Failed(s)
      else if a.NoReplyYet? then Waiting(s)
      else if a.Reply? && a.feedback != NoFeedback then Goto(s.(feedback := a.feedback), Supervisor)
      else Failed(s)
    case Executor =>
      if !s.plan.Artifact? then Failed(s)
      else if a.NoReplyYet? then Waiting(s)
      else if a.Executed? then Goto(s.(output := Report(a.success)), Supervisor)
      else Failed(s)
    case ToolDispatcher =>
      if a.ToolRan? then Finished(s.(escalated := false))
      else if a.Escalates? then Goto(s.(escalated := true), Supervisor)
      else if a.NoReplyYet? then Waiting(s)
      else Failed(s)
  }

  // ---- Runs ----

  /** A node that ran, and in which state. */
  datatype Visit = Visit(node: Node, before: State, answer: Answer)

  /** Where a thread stands between node executions. */
  datatype Place = At(node: Node, state: State) | Idle(state: State)

  /** What happens next: a node runs, or, with no node pending, a new task arrives. */
  datatype Event = Runs(answer: Answer) | NewTask(task: string)

  /** A new task resets plan, output and feedback, but not the escalation flag left by an earlier one. */
  function Fresh(task: string, s: State): State {
    State(task, NoPlan, NoOutput, NoFeedback, s.escalated)
  }

  ghost predicate Follows(p: Place, e: Event, p': Place) {
    match e
    case NewTask(task) => p' == At(Planner, Fresh(task, p.state))
    case Runs(a) =>
      p.At? &&
      match RunNode(p.node, p.state, a)
      case Goto(s, next) => p' == At(next, s)
      case Finished(s) => p' == Idle(s)
      case Waiting(s) => p' == At(p.node, s)
      case Failed(s) => p' == At(p.node, s)
  }

  ghost predicate IsThread(places: seq<Place>, events: seq<Event>) {
    && |places| == |events| + 1
    && places[0] == Idle(State("", NoPlan, NoOutput, NoFeedback, false))
    && forall i :: 0 <= i < |events| ==> Follows(places[i], events[i], places[i + 1])
  }

  // ---- Only approved plans are executed ----

  /** The plan that the human last approved at the gate in the current task, before event n. */
  ghost function LastApproved(places: seq<Place>, events: seq<Event>, n: nat): Plan
    requires n <= |events| < |places|
  {
    if n == 0 then NoPlan
    else if events[n - 1].NewTask? then NoPlan
    else if places[n - 1].At? && places[n - 1].node == HumanGate && events[n - 1].answer.Reply? && places[n - 1].state.plan.Artifact?
            && events[n - 1].answer.feedback != NoFeedback then
      (if events[n - 1].answer.feedback == Approved then places[n - 1].state.plan else NoPlan)
    else LastApproved(places, events, n - 1)
  }

  /** Approval in the state always concerns the plan in the state. */
  ghost predicate ApprovalMatches(p: Place, approved: Plan) {
    && (p.state.feedback == Approved ==> approved == p.state.plan && p.state.plan.Artifact?)
    && (p.At? && p.node == Executor ==> p.state.feedback == Approved)
    && (p.At? && (p.node == HumanGate || p.node == Architect) ==> p.state.feedback != Approved)
    && (p.At? && p.node == HumanGate ==> p.state.plan.Artifact?)
    && (p.At? && (p.node == Planner || p.node == ToolDispatcher) ==>
          p.state.feedback == NoFeedback && p.state.output == NoOutput && !p.state.plan.Artifact?)
    && (p.At? && p.node == Executor ==> p.state.output != Report(true))
    && (p.state.feedback != Approved ==> p.state.output == NoOutput)
    && !p.state.output.Legacy?
  }

  lemma {:induction false} ApprovalInvariant(places: seq<Place>, events: seq<Event>, n: nat)
    requires IsThread(places, events) && n <= |events|
    ensures ApprovalMatches(places[n], LastApproved(places, events, n))
  {
    if n > 0 {
      ApprovalInvariant(places, events, n - 1);
      assert Follows(places[n - 1], events[n - 1], places[n]);
    }
  }

  /** In every thread, over any replies and tasks, the executor runs only the very plan artifact that the
      human last approved at the gate for this task. */
  lemma ExecutorRunsApprovedPlan(places: seq<Place>, events: seq<Event>, n: nat)
    requires IsThread(places, events) && n < |events|
    requires places[n].At? && places[n].node == Executor && events[n].Runs?
    ensures places[n].state.plan.Artifact? && LastApproved(places, events, n) == places[n].state.plan
  {
    ApprovalInvariant(places, events, n);
  }

  // ---- Where each answer leads ----

  /** In every thread, a reply at the gate leads, by way of the supervisor, to the executor with the very
      plan that was approved, or back to the architect with the very reason it was rejected for. */
  lemma ReplyLeads(places: seq<Place>, events: seq<Event>, n: nat, feedback: Feedback)
    requires IsThread(places, events) && n + 1 < |events| && events[n + 1].Runs?
    requires places[n].At? && places[n].node == HumanGate && events[n] == Runs(Reply(feedback)) && feedback != NoFeedback
    ensures places[n + 2] == At(if feedback == Approved then Executor else Architect, places[n].state.(feedback := feedback))
    ensures places[n].state.plan.Artifact?
  {
    ApprovalInvariant(places, events, n);
    assert Follows(places[n], events[n], places[n + 1]);
    assert Follows(places[n + 1], events[n + 1], places[n + 2]);
  }

  /** The architect's plan comes to the gate, with the reason of the last rejection still in the state. */
  lemma PlanLeads(places: seq<Place>, events: seq<Event>, n: nat, id: int)
    requires IsThread(places, events) && n < |events|
    requires places[n].At? && places[n].node == Architect && events[n] == Runs(Brief(id))
    ensures places[n + 1] == At(HumanGate, places[n].state.(plan := Artifact(id)))
  {
    assert Follows(places[n], events[n], places[n + 1]);
  }

  /** A successful report ends the task; a failed one leads back to the executor with the same plan. */
  lemma ReportLeads(places: seq<Place>, events: seq<Event>, n: nat, success: bool)
    requires IsThread(places, events) && n + 1 < |events| && events[n + 1].Runs?
    requires places[n].At? && places[n].node == Executor && events[n] == Runs(Executed(success))
    ensures var s := places[n].state.(output := Report(success));
            places[n + 2] == if success then Idle(s) else At(Executor, s)
  {
    ApprovalInvariant(places, events, n);
    assert Follows(places[n], events[n], places[n + 1]);
    assert Follows(places[n + 1], events[n + 1], places[n + 2]);
  }

  /** A tool run ends the task; an escalation leads to the architect. */
  lemma DispatchLeads(places: seq<Place>, events: seq<Event>, n: nat)
    requires IsThread(places, events) && n + 1 < |events| && events[n + 1].Runs?
    requires places[n].At? && places[n].node == ToolDispatcher
    ensures events[n] == Runs(ToolRan) ==> places[n + 1] == Idle(places[n].state.(escalated := false))
    ensures events[n] == Runs(Escalates) ==> places[n + 2] == At(Architect, places[n].state.(escalated := true))
  {
    ApprovalInvariant(places, events, n);
    assert Follows(places[n], events[n], places[n + 1]);
    assert Follows(places[n + 1], events[n + 1], places[n + 2]);
  }

  /** A thread becomes idle exactly after a successful report or a tool run, and after a report the plan
      that ran is the one the human approved last. */
  lemma IdleIff(places: seq<Place>, events: seq<Event>, n: nat)
    requires IsThread(places, events) && n < |events| && events[n].Runs?
    ensures places[n].At?
    ensures places[n + 1].Idle? <==>
              || (places[n].node == Supervisor && places[n].state.output == Report(true))
              || (places[n].node == ToolDispatcher && events[n] == Runs(ToolRan))
    ensures places[n + 1].Idle? && places[n].node == Supervisor ==>
              places[n + 1] == Idle(places[n].state) && LastApproved(places, events, n) == places[n].state.plan
  {
    SupervisorInvariant(places, events, n);
    assert Follows(places[n], events[n], places[n + 1]);
  }

  /** The supervisor never meets a plan without a decision. */
  lemma {:induction false} SupervisorInvariant(places: seq<Place>, events: seq<Event>, n: nat)
    requires IsThread(places, events) && n <= |events|
    ensures ApprovalMatches(places[n], LastApproved(places, events, n))
    ensures places[n].At? && places[n].node == Supervisor && places[n].state.plan.Artifact? ==> places[n].state.feedback != NoFeedback
  {
    ApprovalInvariant(places, events, n);
    if n > 0 {
      ApprovalInvariant(places, events, n - 1);
      assert Follows(places[n - 1], events[n - 1], places[n]);
    }
  }

  /** A node waits exactly when it needs a person who has not answered: at the gate and in the executor
      with a plan, or in the dispatcher; it fails exactly for want of a plan or on an unfit answer. */
  lemma WaitsIff(node: Node, s: State, a: Answer)
    ensures RunNode(node, s, a) == Waiting(s) <==>
              a.NoReplyYet? && (node == ToolDispatcher || ((node == HumanGate || node == Executor) && s.plan.Artifact?))
    ensures RunNode(node, s, a) == Failed(s) <==>
              match node
              case Planner => false
              case Supervisor => false
              case Architect => !a.Brief?
              case HumanGate => !s.plan.Artifact? || !(a.NoReplyYet? || (a.Reply? && a.feedback != NoFeedback))
              case Executor => !s.plan.Artifact? || !(a.NoReplyYet? || a.Executed?)
              case ToolDispatcher => !(a.ToolRan? || a.Escalates? || a.NoReplyYet?)
    ensures RunNode(node, s, a).Failed? || RunNode(node, s, a).Waiting? ==> RunNode(node, s, a).state == s
  {
    hide RouteFromState;
  }

  // ---- How many nodes run between two human inputs ----

  /** Nodes run by one pass that starts at a node and gets these answers, until it ends, waits, fails or
      runs out of answers. */
  function Pass(node: Node, s: State, answers: seq<Answer>): seq<Visit>
    decreases |answers|
  {
    if answers == [] then []
    else
      [Visit(node, s, answers[0])] +
      match RunNode(node, s, answers[0])
      case Goto(s', next) => Pass(next, s', answers[1..])
      case _ => []
  }

  /** Whether the pass comes to rest within the given answers. */
  predicate Rests(node: Node, s: State, answers: seq<Answer>)
    decreases |answers|
  {
    answers != [] &&
    match RunNode(node, s, answers[0])
    case Goto(s', next) => Rests(next, s', answers[1..])
    case _ => true
  }

  /** Where a human input can start a pass: a new task at the planner, or a reply to a waiting node. */
  predicate AfterInput(node: Node, s: State) {
    match node
    case Planner => s.feedback == NoFeedback && s.output == NoOutput && !s.plan.Artifact?
    case HumanGate => s.plan.Artifact? && s.output == NoOutput && s.feedback != Approved
    case ToolDispatcher => s.feedback == NoFeedback && s.output == NoOutput && !s.plan.Artifact?
    case Executor => s.plan.Artifact? && s.feedback == Approved && (s.output == NoOutput || s.output == Report(false))
    case _ => false
  }

  /** The human gate asks first when reached anew: it waits unless it is the resumed node. */
  predicate AsksAtGate(node: Node, s: State, answers: seq<Answer>, first: bool)
    decreases |answers|
  {
    answers == [] ||
    (&& (node == HumanGate && !first ==> answers[0].NoReplyYet?)
     && match RunNode(node, s, answers[0])
        case Goto(s', next) => AsksAtGate(next, s', answers[1..], false)
        case _ => true)
  }

  /** Executor runs of the pass that end in an unsuccessful report. */
  function ExecutorFailures(visits: seq<Visit>): nat {
    if visits == [] then 0
    else (if visits[0].node == Executor && visits[0].answer == Executed(false) then 1 else 0) + ExecutorFailures(visits[1..])
  }

  function DispatcherRuns(visits: seq<Visit>): nat {
    if visits == [] then 0 else (if visits[0].node == ToolDispatcher then 1 else 0) + DispatcherRuns(visits[1..])
  }

  /** The longest rest of a pass from each place, with no failed executor run. */
  function Remaining(node: Node, s: State): nat {
    match node
    case Planner => if s.escalated then 4 else 6
    case HumanGate => 4
    case Executor => 2
    case Architect => 2
    case ToolDispatcher => if s.feedback == NoFeedback then 4 else 1
    case Supervisor =>
      (match RouteFromState(s)
       case ToEnd => 1
       case ToExecutor => 3
       case ToArchitect => 3
       case ToTool => 5)
  }

  /** What holds wherever a pass can be. */
  predicate Reachable(node: Node, s: State) {
    && !s.output.Legacy?
    && (s.feedback != Approved ==> s.output == NoOutput)
    && (s.feedback == Approved ==> s.plan.Artifact?)
    && (node == Planner ==> s.feedback == NoFeedback && !s.plan.Artifact?)
    && (node == Architect ==> s.feedback != Approved)
    && (node == HumanGate ==> s.plan.Artifact? && s.feedback != Approved)
    && (node == Executor ==> s.feedback == Approved && s.output != Report(true))
    && (node == ToolDispatcher ==> s.feedback == NoFeedback && !s.plan.Artifact?)
    && (node == Supervisor && s.plan.Artifact? ==> s.feedback != NoFeedback)
  }

  /** Dispatcher runs still possible from a place. */
  function DispatcherBudget(node: Node, s: State): nat {
    match node
    case Planner => if s.escalated then 0 else 1
    case ToolDispatcher => 1
    case Supervisor => if RouteFromState(s) == ToTool then 1 else 0
    case _ => 0
  }

  /** In every thread, a node that can take a human input is reached only in such a state. */
  lemma InputsComeInOrder(places: seq<Place>, events: seq<Event>, n: nat)
    requires IsThread(places, events) && n <= |events| && places[n].At?
    requires places[n].node != Supervisor && places[n].node != Architect
    ensures AfterInput(places[n].node, places[n].state)
  {
    ApprovalInvariant(places, events, n);
  }

  lemma {:induction false} PassLength(node: Node, s: State, answers: seq<Answer>, first: bool)
    requires Reachable(node, s) && AsksAtGate(node, s, answers, first)
    ensures |Pass(node, s, answers)| <= (if node == HumanGate && !first then 1 else Remaining(node, s))
                                        + 2 * ExecutorFailures(Pass(node, s, answers))
    ensures DispatcherRuns(Pass(node, s, answers)) <= DispatcherBudget(node, s)
    decreases |answers|
  {
    if answers != [] {
      var visits := Pass(node, s, answers);
      var step := RunNode(node, s, answers[0]);
      if step.Goto? {
        PassLength(step.next, step.state, answers[1..], false);
        assert visits[1..] == Pass(step.next, step.state, answers[1..]);
      } else {
        assert visits[1..] == [];
      }
    }
  }

  lemma {:induction false} RestsOrGoesOn(node: Node, s: State, answers: seq<Answer>)
    ensures Rests(node, s, answers) || |Pass(node, s, answers)| == |answers|
    decreases |answers|
  {
    if answers != [] {
      var step := RunNode(node, s, answers[0]);
      if step.Goto? { RestsOrGoesOn(step.next, step.state, answers[1..]); }
    }
  }

  /** Between two human inputs the dispatcher runs at most once, and at most 6 + 2f nodes run when the
      executor fails f times: within the six the recursion limit allows when no executor run fails. */
  lemma NodesPerInput(node: Node, s: State, answers: seq<Answer>)
    requires AfterInput(node, s) && AsksAtGate(node, s, answers, true)
    ensures |Pass(node, s, answers)| <= 6 + 2 * ExecutorFailures(Pass(node, s, answers))
    ensures DispatcherRuns(Pass(node, s, answers)) <= 1
    ensures |answers| > 6 + 2 * ExecutorFailures(Pass(node, s, answers)) ==> Rests(node, s, answers)
    ensures node == HumanGate || node == Executor ==> |Pass(node, s, answers)| <= 4 + 2 * ExecutorFailures(Pass(node, s, answers))
  {
    PassLength(node, s, answers, true);
    RestsOrGoesOn(node, s, answers);
  }

  /** Answers of a human who approves and an executor that fails n times and then succeeds. */
  function Retries(n: nat): seq<Answer> {
    if n == 0 then [Executed(true), NoReplyYet] else [Executed(false), NoReplyYet] + Retries(n - 1)
  }

  lemma {:induction false} RetriesFrom(s: State, n: nat)
    requires s.plan.Artifact? && s.feedback == Approved && s.output != Report(true)
    ensures |Pass(Executor, s, Retries(n))| == 2 * n + 2 && Rests(Executor, s, Retries(n))
    decreases n
  {
    var r := Retries(n);
    var s' := s.(output := Report(n == 0));
    assert RunNode(Executor, s, r[0]) == Goto(s', Supervisor);
    if n == 0 {
      assert r[1..] == [NoReplyYet];
      assert RunNode(Supervisor, s', NoReplyYet) == Finished(s');
    } else {
      assert r[1..][1..] == Retries(n - 1);
      assert RunNode(Supervisor, s', r[1..][0]) == Goto(s', Executor);
      RetriesFrom(s', n - 1);
    }
  }

  /** Every number of failures occurs: a pass from the gate in which the executor fails n times before it
      succeeds runs exactly 2n + 4 nodes. */
  lemma FailuresCostTwoNodes(s: State, n: nat)
    requires s.plan.Artifact? && s.feedback != Approved && s.output == NoOutput
    ensures var answers := [Reply(Approved), NoReplyYet] + Retries(n);
            Rests(HumanGate, s, answers) && |Pass(HumanGate, s, answers)| == 2 * n + 4
  {
    var answers := [Reply(Approved), NoReplyYet] + Retries(n);
    var s' := s.(feedback := Approved);
    assert RunNode(HumanGate, s, answers[0]) == Goto(s', Supervisor);
    assert answers[1..][0] == NoReplyYet && answers[1..][1..] == Retries(n);
    assert RunNode(Supervisor, s', NoReplyYet) == Goto(s', Executor);
    RetriesFrom(s', n);
  }

  /** The least length of a resting pass from each place, when the executor fails f times in it: where
      no executor can follow without a new reply, it fails not at all. */
  predicate AtLeast(node: Node, s: State, first: bool, length: nat, f: nat) {
    match node
    case Executor => length >= 2 * f + 1
    case Supervisor => if s.feedback == Approved && s.output != Report(true) then length >= 2 * f + 2 else f == 0
    case HumanGate => f == 0 || (first && length >= 2 * f + 3)
    case _ => f == 0
  }

  lemma {:induction false} PassIsLong(node: Node, s: State, answers: seq<Answer>, first: bool)
    requires Reachable(node, s) && AsksAtGate(node, s, answers, first) && Rests(node, s, answers)
    ensures AtLeast(node, s, first, |Pass(node, s, answers)|, ExecutorFailures(Pass(node, s, answers)))
    decreases |answers|
  {
    var visits := Pass(node, s, answers);
    var step := RunNode(node, s, answers[0]);
    if step.Goto? {
      PassIsLong(step.next, step.state, answers[1..], false);
      assert visits[1..] == Pass(step.next, step.state, answers[1..]);
    } else {
      assert visits[1..] == [];
    }
  }

  /** For every pass between two human inputs that comes to rest, at most six nodes run if and only if the
      executor fails at most once, or at most twice when the pass resumes the executor itself. */
  lemma SixNodesIff(node: Node, s: State, answers: seq<Answer>)
    requires AfterInput(node, s) && AsksAtGate(node, s, answers, true) && Rests(node, s, answers)
    ensures |Pass(node, s, answers)| <= 6 <==>
              ExecutorFailures(Pass(node, s, answers)) <= (if node == Executor then 2 else 1)
  {
    hide Pass, Rests, AsksAtGate, ExecutorFailures;
    PassLength(node, s, answers, true);
    PassIsLong(node, s, answers, true);
  }

  // ---- A new task and the dispatcher ----

  /** Whether the dispatcher's last completed run before event n, of whatever task, handed over to the
      architect. */
  ghost function LastRunEscalated(places: seq<Place>, events: seq<Event>, n: nat): bool
    requires n <= |events| < |places|
  {
    if n == 0 then false
    else if places[n - 1].At? && places[n - 1].node == ToolDispatcher && events[n - 1] == Runs(Escalates) then true
    else if places[n - 1].At? && places[n - 1].node == ToolDispatcher && events[n - 1] == Runs(ToolRan) then false
    else LastRunEscalated(places, events, n - 1)
  }

  /** The escalation flag belongs to the thread: it remembers the last dispatcher run across tasks. */
  lemma {:induction false} FlagIsLastRun(places: seq<Place>, events: seq<Event>, n: nat)
    requires IsThread(places, events) && n <= |events|
    ensures places[n].state.escalated == LastRunEscalated(places, events, n)
  {
    if n > 0 {
      FlagIsLastRun(places, events, n - 1);
      assert Follows(places[n - 1], events[n - 1], places[n]);
    }
  }

  /** The flag alone decides, because a new task does not reset it. */
  lemma NewTaskReachesDispatcher(task: string, s: State, a: Answer, b: Answer)
    ensures var start := Fresh(task, s);
            var planned := RunNode(Planner, start, a).state;
            RunNode(Supervisor, planned, b) == Goto(planned, if s.escalated then Architect else ToolDispatcher)
  {
  }

  /** The routing rule "a new unresolved task goes to the tool dispatcher first" holds in a thread exactly
      when the dispatcher's last completed run, in any earlier task, did not escalate: a new task does not
      reset the flag, and then goes to the architect instead. */
  lemma NewTaskReachesDispatcherIff(places: seq<Place>, events: seq<Event>, n: nat)
    requires IsThread(places, events) && n + 2 < |events|
    requires events[n].NewTask? && events[n + 1].Runs? && events[n + 2].Runs?
    ensures places[n + 3].At?
    ensures places[n + 3].node == if LastRunEscalated(places, events, n) then Architect else ToolDispatcher
  {
    hide LastRunEscalated;
    FlagIsLastRun(places, events, n);
    NewTaskReachesDispatcher(events[n].task, places[n].state, events[n + 1].answer, events[n + 2].answer);
    assert Follows(places[n], events[n], places[n + 1]);
    assert Follows(places[n + 1], events[n + 1], places[n + 2]);
    assert Follows(places[n + 2], events[n + 2], places[n + 3]);
  }

  /** One escalated task, answered and finished. */
  lemma EscalatedTask() returns (places: seq<Place>, events: seq<Event>)
    ensures |places| == |events| + 1 && IsThread(places, events)
    ensures places[|events|] == Idle(State("", Artifact(0), Report(true), Approved, true))
  {
    hide IsThread;
    var s0 := State("", NoPlan, NoOutput, NoFeedback, false);
    var s1 := s0.(plan := Task(""));
    var s2 := s1.(escalated := true);
    var s3 := s2.(plan := Artifact(0));
    var s4 := s3.(feedback := Approved);
    var s5 := s4.(output := Report(true));
    places, events := NewThread();
    places, events := Extend(places, events, NewTask(""), At(Planner, s0));
    places, events := Extend(places, events, Runs(Raises), At(Supervisor, s1));
    places, events := Extend(places, events, Runs(Raises), At(ToolDispatcher, s1));
    places, events := Extend(places, events, Runs(Escalates), At(Supervisor, s2));
    places, events := Extend(places, events, Runs(Raises), At(Architect, s2));
    places, events := Extend(places, events, Runs(Brief(0)), At(HumanGate, s3));
    places, events := Extend(places, events, Runs(Reply(Approved)), At(Supervisor, s4));
    places, events := Extend(places, events, Runs(Raises), At(Executor, s4));
    places, events := Extend(places, events, Runs(Executed(true)), At(Supervisor, s5));
    places, events := Extend(places, events, Runs(Raises), Idle(s5));
  }

  lemma NewThread() returns (places: seq<Place>, events: seq<Event>)
    ensures |places| == |events| + 1 && IsThread(places, events)
    ensures places[|events|] == Idle(State("", NoPlan, NoOutput, NoFeedback, false))
  {
    places, events := [Idle(State("", NoPlan, NoOutput, NoFeedback, false))], [];
  }

  lemma Extend(places: seq<Place>, events: seq<Event>, e: Event, p: Place) returns (ps: seq<Place>, es: seq<Event>)
    requires |places| == |events| + 1 && IsThread(places, events) && Follows(places[|events|], e, p)
    ensures |ps| == |es| + 1 && |es| == |events| + 1 && ps[|es|] == p && es[|events|] == e
    ensures IsThread(ps, es) && ps[..|places|] == places && es[..|events|] == events
  {
    hide Follows;
    ps, es := places + [p], events + [e];
  }

  /** Such a thread exists: a finished escalated task, then a new task that skips the dispatcher. */
  lemma EscalationOutlivesItsTask()
    ensures exists places: seq<Place>, events: seq<Event>, n: nat ::
              && IsThread(places, events) && 0 < n < |events| && events[n].NewTask?
              && places[n].Idle? && places[n].state.escalated
              && places[|events|].At? && places[|events|].node == Architect
  {
    var places, events := EscalatedTask();
    var n := |events|;
    var s := State("", NoPlan, NoOutput, NoFeedback, true);
    var planned := s.(plan := Task(""));
    assert n > 0;
    var p1, e1 := Extend(places, events, NewTask(""), At(Planner, s));
    var p2, e2 := Extend(p1, e1, Runs(Raises), At(Supervisor, planned));
    var p3, e3 := Extend(p2, e2, Runs(Raises), At(Architect, planned));
    assert e3[n] == e3[..|e2|][n] == e2[..|e1|][n] == e1[n];
    assert p3[n] == p3[..|p2|][n] == p2[..|p1|][n] == p1[..|places|][n] == places[n];
  }
}
