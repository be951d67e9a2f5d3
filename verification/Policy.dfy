/** The policy engine: taxonomy, learned rules, session grants and human answers. */
module Policy {
  import opened Options
  import opened PermissionKeys
  import opened PythonText

  datatype Effect = AlwaysApprove | AlwaysDeny

  datatype Rule = Rule(effect: Effect, approveCount: nat, denyCount: nat)

  /** The shared rule store and the process-wide session grants. */
  datatype State = State(rules: map<string, Rule>, grants: map<string, set<string>>)

  datatype Mode = Manual | Off

  /** One engine instance: `smart` behaves as `manual`. */
  datatype Engine = Local(mode: Mode, session: Option<string>, hasStore: bool)
                  | Composite(mode: Mode, session: Option<string>, hasStore: bool, plugins: seq<PluginAnswer>)

  /** Anything but a denial permits; a denial may name its own policy. */
  datatype PluginAnswer = Permits | Denies(policyId: string) | Raises

  datatype Verdict = Allow | Deny | RequireApproval

  datatype Decision = Decision(verdict: Verdict, policyId: string)

  // ---- Evaluation ----

  predicate HighTier(p: Proposal) {
    p.sideEffect == Payment || p.sideEffect == Privileged
  }

  function Shown(a: Argument): string {
    match a
    case Absent => ""
    case Str(s) => s
    case Other(s) => s
  }

  function DropSlashes(s: string): string {
    if s != "" && s[0] == '/' then DropSlashes(s[1..]) else s
  }

  predicate Under(s: string, folder: string) {
    |folder| <= |s| && s[..|folder|] == folder
  }

  /** Writes that need no approval: appending to logs, appending or creating briefs. */
  predicate IsLogWrite(p: Proposal) {
    var ref := DropSlashes(Shown(p.ref));
    p.sideEffect == Write && !p.ref.Absent? && (Under(ref, "AI/Logs/") || Under(ref, "agentos/logs/")) && Shown(p.mode) == "append"
  }

  predicate IsBriefWrite(p: Proposal) {
    var ref := DropSlashes(Shown(p.ref));
    p.sideEffect == Write && !p.ref.Absent? && (Under(ref, "AI/Briefs/") || Under(ref, "agentos/briefs/"))
    && (Shown(p.mode) == "append" || Shown(p.mode) == "create")
  }

  function RuleFor(e: Engine, s: State, p: Proposal): Option<Rule> {
    match DeriveKey(p)
    case Some(k) => if e.hasStore && k in s.rules then Some(s.rules[k]) else None
    case None => None
  }

  predicate SessionGranted(e: Engine, s: State, p: Proposal) {
    match (e.session, DeriveKey(p))
    case (Some(sk), Some(k)) => sk in s.grants && k in s.grants[sk]
    case _ => false
  }

  function BaseDecision(e: Engine, s: State, p: Proposal): Decision {
    var rule := RuleFor(e, s, p);
    if e.mode == Off then Decision(Allow, "mode-off")
    else if HighTier(p) then Decision(Deny, "default")
    else if rule.Some? && rule.value.effect == AlwaysDeny then Decision(Deny, "learned")
    else if SessionGranted(e, s, p) then Decision(Allow, "session")
    else if rule.Some? then Decision(Allow, "learned")
    else if IsLogWrite(p) then Decision(Allow, "builtin-logs")
    else if IsBriefWrite(p) then Decision(Allow, "builtin-briefs")
    else if p.sideEffect == Read || p.sideEffect == Nothing then Decision(Allow, "default")
    else Decision(RequireApproval, "default")
  }

  function PluginVerdict(base: Decision, plugins: seq<PluginAnswer>): Decision {
    if plugins == [] then base
    else match plugins[0]
      case Raises => Decision(Deny, "policy-plugin-error")
      case Denies(id) => Decision(Deny, if id == "" then "policy-plugin-denied" else id)
      case Permits => PluginVerdict(base, plugins[1..])
  }

  function Decide(e: Engine, s: State, p: Proposal): Decision {
    if e.Local? then BaseDecision(e, s, p)
    else if HighTier(p) then Decision(Deny, "default")
    else
      var base := BaseDecision(e, s, p);
      if base.verdict == Deny then base else PluginVerdict(base, e.plugins)
  }

  /** The rules after an evaluation: a rule that decided has its counter raised. */
  function Counted(e: Engine, s: State, p: Proposal): map<string, Rule> {
    var rule := RuleFor(e, s, p);
    if e.mode == Off || HighTier(p) || rule.None? then s.rules
    else
      var k := DeriveKey(p).value;
      if rule.value.effect == AlwaysDeny then s.rules[k := rule.value.(denyCount := rule.value.denyCount + 1)]
      else if SessionGranted(e, s, p) then s.rules
      else s.rules[k := rule.value.(approveCount := rule.value.approveCount + 1)]
  }

  // ---- Which decision, by outcome ----

  ghost predicate HasRule(e: Engine, s: State, p: Proposal, effect: Effect) {
    e.hasStore && exists k :: DeriveKey(p) == Some(k) && k in s.rules && s.rules[k].effect == effect
  }

  ghost predicate HasGrant(e: Engine, s: State, p: Proposal) {
    exists k, sk :: DeriveKey(p) == Some(k) && e.session == Some(sk) && sk in s.grants && k in s.grants[sk]
  }

  /** The built-in decision in every state: payments and privileged actions are denied, a denial is stronger
      than a session grant, a grant than an approval, an approval than the built-in folders, and only reads
      need nothing. */
  lemma DecisionByOutcome(e: Engine, s: State, p: Proposal)
    ensures var d := BaseDecision(e, s, p);
            var high := p.sideEffect == Payment || p.sideEffect == Privileged;
            var denied, granted, approved := HasRule(e, s, p, AlwaysDeny), HasGrant(e, s, p), HasRule(e, s, p, AlwaysApprove);
            var open := e.mode == Manual && !high && !denied && !granted && !approved;
            && (d == Decision(Allow, "mode-off") <==> e.mode == Off)
            && (d == Decision(Deny, "default") <==> e.mode == Manual && high)
            && (d == Decision(Deny, "learned") <==> e.mode == Manual && !high && denied)
            && (d == Decision(Allow, "session") <==> e.mode == Manual && !high && !denied && granted)
            && (d == Decision(Allow, "learned") <==> e.mode == Manual && !high && !denied && !granted && approved)
            && (d == Decision(Allow, "builtin-logs") <==> open && IsLogWrite(p))
            && (d == Decision(Allow, "builtin-briefs") <==> open && !IsLogWrite(p) && IsBriefWrite(p))
            && (d == Decision(Allow, "default") <==> open && (p.sideEffect == Read || p.sideEffect == Nothing))
            && (d == Decision(RequireApproval, "default") <==>
                  && open && !IsLogWrite(p) && !IsBriefWrite(p)
                  && (p.sideEffect == Write || p.sideEffect == Network || p.sideEffect == Communication))
  {
    hide DeriveKey;
    BuiltinsAreWrites(p);
    hide IsLogWrite, IsBriefWrite;
  }

  lemma BuiltinsAreWrites(p: Proposal)
    ensures IsLogWrite(p) || IsBriefWrite(p) ==> p.sideEffect == Write
  {
    hide DropSlashes;
  }

  /** A path below a folder, with any number of slashes in front. */
  ghost predicate Below(path: string, folder: string) {
    exists slashes, rest :: path == slashes + (folder + rest) && forall i :: 0 <= i < |slashes| ==> slashes[i] == '/'
  }

  lemma {:induction false} DroppedSlashes(path: string) returns (slashes: string)
    ensures path == slashes + DropSlashes(path) && forall i :: 0 <= i < |slashes| ==> slashes[i] == '/'
    decreases |path|
  {
    if path != "" && path[0] == '/' {
      var more := DroppedSlashes(path[1..]);
      slashes := ['/'] + more;
    } else {
      slashes := "";
    }
  }

  lemma {:induction false} DropOf(slashes: string, s: string)
    requires (forall i :: 0 <= i < |slashes| ==> slashes[i] == '/') && s != "" && s[0] != '/'
    ensures DropSlashes(slashes + s) == s
    decreases |slashes|
  {
    if slashes == "" {
      assert slashes + s == s;
    } else {
      assert (slashes + s)[1..] == slashes[1..] + s;
      DropOf(slashes[1..], s);
    }
  }

  lemma BelowIff(path: string, folder: string)
    requires folder != "" && folder[0] != '/'
    ensures Under(DropSlashes(path), folder) <==> Below(path, folder)
  {
    hide DropSlashes, Below, Under;
    if Under(DropSlashes(path), folder) { UnderIsBelow(path, folder); }
    if Below(path, folder) { BelowIsUnder(path, folder); }
  }

  lemma UnderIsBelow(path: string, folder: string)
    requires Under(DropSlashes(path), folder)
    ensures Below(path, folder)
  {
    hide DropSlashes;
    var slashes := DroppedSlashes(path);
    assert DropSlashes(path) == folder + DropSlashes(path)[|folder|..];
  }

  lemma BelowIsUnder(path: string, folder: string)
    requires folder != "" && folder[0] != '/' && Below(path, folder)
    ensures Under(DropSlashes(path), folder)
  {
    hide DropSlashes;
    var slashes, rest :| path == slashes + (folder + rest) && forall i :: 0 <= i < |slashes| ==> slashes[i] == '/';
    DropOf(slashes, folder + rest);
  }

  ghost predicate Shows(a: Argument, text: string) {
    a == Str(text) || a == Other(text)
  }

  /** The two kinds of writes that need no approval, in the words of the arguments. */
  lemma BuiltinWritesAre(p: Proposal)
    ensures IsLogWrite(p) <==>
              && p.sideEffect == Write && Shows(p.mode, "append")
              && exists r :: Shows(p.ref, r) && (Below(r, "AI/Logs/") || Below(r, "agentos/logs/"))
    ensures IsBriefWrite(p) <==>
              && p.sideEffect == Write && (Shows(p.mode, "append") || Shows(p.mode, "create"))
              && exists r :: Shows(p.ref, r) && (Below(r, "AI/Briefs/") || Below(r, "agentos/briefs/"))
  {
    hide DropSlashes, Under, Below;
    var r := Shown(p.ref);
    BelowIff(r, "AI/Logs/");
    BelowIff(r, "agentos/logs/");
    BelowIff(r, "AI/Briefs/");
    BelowIff(r, "agentos/briefs/");
    assert !p.ref.Absent? ==> Shows(p.ref, r);
  }

  /** An evaluation raises one counter by one exactly when a learned rule decided: the one for its effect. */
  lemma CountersRise(e: Engine, s: State, p: Proposal)
    ensures var d := BaseDecision(e, s, p);
            if d.policyId != "learned" then Counted(e, s, p) == s.rules
            else
              && DeriveKey(p).Some? && DeriveKey(p).value in s.rules
              && var k := DeriveKey(p).value;
                 var r := s.rules[k];
                 Counted(e, s, p) == s.rules[k := if d.verdict == Deny then Rule(AlwaysDeny, r.approveCount, r.denyCount + 1)
                                                  else Rule(AlwaysApprove, r.approveCount + 1, r.denyCount)]
  {
    hide DeriveKey, IsLogWrite, IsBriefWrite;
  }

  /** The first plugin that denies or raises decides, under its own name if it has one; if none does, the
      base decision stands. */
  lemma {:induction false} FirstRestrictionDecides(base: Decision, plugins: seq<PluginAnswer>)
    ensures (forall i :: 0 <= i < |plugins| ==> plugins[i].Permits?) ==> PluginVerdict(base, plugins) == base
    ensures forall n :: 0 <= n < |plugins| && !plugins[n].Permits? && (forall i :: 0 <= i < n ==> plugins[i].Permits?) ==>
              PluginVerdict(base, plugins) ==
                Decision(Deny, if plugins[n].Raises? then "policy-plugin-error"
                               else if plugins[n].policyId == "" then "policy-plugin-denied" else plugins[n].policyId)
    decreases |plugins|
  {
    if plugins != [] && plugins[0].Permits? {
      FirstRestrictionDecides(base, plugins[1..]);
      forall n | 0 <= n < |plugins| && !plugins[n].Permits? && (forall i :: 0 <= i < n ==> plugins[i].Permits?)
        ensures PluginVerdict(base, plugins) ==
                Decision(Deny, if plugins[n].Raises? then "policy-plugin-error"
                               else if plugins[n].policyId == "" then "policy-plugin-denied" else plugins[n].policyId)
      {
        assert plugins[1..][n - 1] == plugins[n];
        assert forall i :: 0 <= i < n - 1 ==> plugins[1..][i] == plugins[i + 1];
      }
    }
  }

  // ---- Human answers ----

  datatype Reply = Once | ForSession | Always | Never | Rejected | Unsupported

  /** `re.sub(r"[\s-]+", "_", s)`. */
  function JoinWords(s: string, joining: bool): string {
    if s == "" then ""
    else if IsSpace(s[0]) || s[0] == '-' then (if joining then "" else "_") + JoinWords(s[1..], true)
    else [s[0]] + JoinWords(s[1..], false)
  }

  function NormalizeReply(value: string): Reply {
    var raw := Strip(value);
    var n := JoinWords(Lower(raw), false);
    if raw == "" then Unsupported
    else if n == "approved" || n == "approve" || n == "y" || n == "yes" then Once
    else if n == "session" || n == "approve_session" || n == "session_approve" then ForSession
    else if n == "always_approve" then Always
    else if n == "always_deny" then Never
    else if Under(n, "rejected:") || n == "rejected" || n == "reject" || n == "n" || n == "no" then Rejected
    else Unsupported
  }

  /** How one proposal went: whether a human was asked, and whether the action was carried out. */
  datatype Outcome = Outcome(prompted: bool, executed: bool)

  function NewRule(s: State, k: string, effect: Effect): State {
    s.(rules := s.rules[k := if k in s.rules then s.rules[k].(effect := effect) else Rule(effect, 0, 0)])
  }

  function Grant(s: State, session: string, k: string): State {
    s.(grants := s.grants[session := (if session in s.grants then s.grants[session] else {}) + {k}])
  }

  /** What an answer to the prompt does. */
  function Answered(e: Engine, s: State, p: Proposal, reply: Reply): (Outcome, State) {
    match reply
    case Once => (Outcome(true, true), s)
    case Rejected => (Outcome(true, false), s)
    case Unsupported => (Outcome(true, false), s)
    case _ =>
      if HighTier(p) then (Outcome(true, reply == Always), s)
      else
        match DeriveKey(p)
        case None => (Outcome(true, false), s)
        case Some(k) =>
          if reply == ForSession then
            match e.session
            case None => (Outcome(true, false), s)
            case Some(sk) => (Outcome(true, true), Grant(s, sk, k))
          else if !e.hasStore then (Outcome(true, false), s)
          else if reply == Always then (Outcome(true, true), NewRule(s, k, AlwaysApprove))
          else (Outcome(true, false), NewRule(s, k, AlwaysDeny))
  }

  /** One proposal from evaluation to outcome. */
  function Apply(e: Engine, s: State, p: Proposal, reply: string): (Outcome, State) {
    var evaluated := if e.Composite? && HighTier(p) then s else s.(rules := Counted(e, s, p));
    match Decide(e, s, p).verdict
    case Allow => (Outcome(false, true), evaluated)
    case Deny => (Outcome(false, false), evaluated)
    case RequireApproval => Answered(e, evaluated, p, NormalizeReply(reply))
  }

  // ---- The engine's own objects ----

  class PolicyService {
    var rules: map<string, Rule>
    var sessionApproved: map<string, set<string>>

    ghost function Now(): State
      reads this
    {
      State(rules, sessionApproved)
    }

    constructor ()
      ensures Now() == State(map[], map[])
    {
      rules, sessionApproved := map[], map[];
    }

    method ApproveSession(session: string, key: string)
      modifies this`sessionApproved
      ensures Now() == Grant(old(Now()), session, key)
    {
      if session !in sessionApproved { sessionApproved := sessionApproved[session := {}]; }
      sessionApproved := sessionApproved[session := sessionApproved[session] + {key}];
    }

    method ClearSession(session: string)
      modifies this`sessionApproved
      ensures sessionApproved == old(sessionApproved) - {session}
    {
      sessionApproved := sessionApproved - {session};
    }

    /** The store's `delete`. */
    method Revoke(key: string) returns (existed: bool)
      modifies this`rules
      ensures existed <==> key in old(rules)
      ensures rules == old(rules) - {key}
    {
      existed := key in rules;
      rules := rules - {key};
    }

    method Upsert(key: string, effect: Effect)
      modifies this`rules
      ensures Now() == NewRule(old(Now()), key, effect)
      ensures key in rules && rules[key].effect == effect && rules - {key} == old(rules) - {key}
      ensures key in old(rules) ==> rules[key] == old(rules)[key].(effect := effect)
      ensures key !in old(rules) ==> rules[key] == Rule(effect, 0, 0)
    {
      if key in rules {
        rules := rules[key := rules[key].(effect := effect)];
      } else {
        rules := rules[key := Rule(effect, 0, 0)];
      }
    }

    /** `LocalPolicy.evaluate`: deny first, then session, learned rule, built-ins, taxonomy. */
    method EvaluateBase(e: Engine, p: Proposal) returns (d: Decision)
      modifies this`rules
      ensures d == BaseDecision(e, old(Now()), p)
      ensures rules == Counted(e, old(Now()), p)
    {
      hide IsSpace, DropSlashes;
      if e.mode == Off { return Decision(Allow, "mode-off"); }
      if HighTier(p) { return Decision(Deny, "default"); }
      var key := DeriveKey(p);
      var rule: Option<Rule> := None;
      if e.hasStore && key.Some? && key.value in rules { rule := Some(rules[key.value]); }
      if rule.Some? && rule.value.effect == AlwaysDeny {
        rules := rules[key.value := rule.value.(denyCount := rule.value.denyCount + 1)];
        return Decision(Deny, "learned");
      }
      if e.session.Some? && key.Some? && e.session.value in sessionApproved && key.value in sessionApproved[e.session.value] {
        return Decision(Allow, "session");
      }
      if rule.Some? {
        rules := rules[key.value := rule.value.(approveCount := rule.value.approveCount + 1)];
        return Decision(Allow, "learned");
      }
      if IsLogWrite(p) { return Decision(Allow, "builtin-logs"); }
      if IsBriefWrite(p) { return Decision(Allow, "builtin-briefs"); }
      if p.sideEffect == Read || p.sideEffect == Nothing { return Decision(Allow, "default"); }
      return Decision(RequireApproval, "default");
    }

    /** `CompositePolicyEngine.evaluate`, or the local one. */
    method Evaluate(e: Engine, p: Proposal) returns (d: Decision)
      modifies this`rules
      ensures d == Decide(e, old(Now()), p)
      ensures rules == if e.Composite? && HighTier(p) then old(rules) else Counted(e, old(Now()), p)
    {
      hide Counted, BaseDecision;
      if e.Composite? && HighTier(p) { return Decision(Deny, "default"); }
      d := EvaluateBase(e, p);
      if e.Local? || d.verdict == Deny { return; }
      var i := 0;
      while i < |e.plugins|
        invariant 0 <= i <= |e.plugins|
        invariant PluginVerdict(d, e.plugins) == PluginVerdict(d, e.plugins[i..])
      {
        assert e.plugins[i..][1..] == e.plugins[i + 1..];
        if e.plugins[i] == Raises { return Decision(Deny, "policy-plugin-error"); }
        if e.plugins[i].Denies? {
          return Decision(Deny, if e.plugins[i].policyId == "" then "policy-plugin-denied" else e.plugins[i].policyId);
        }
        i := i + 1;
      }
    }

    /** `apply_policy`; `answer` is what the human replies if asked. */
    method ApplyPolicy(e: Engine, p: Proposal, answer: string) returns (outcome: Outcome)
      modifies this
      ensures (outcome, Now()) == Apply(e, old(Now()), p, answer)
    {
      hide Counted, BaseDecision, NormalizeReply, DeriveKey;
      var d := Evaluate(e, p);
      if d.verdict == Allow { return Outcome(false, true); }
      if d.verdict == Deny { return Outcome(false, false); }
      var reply := NormalizeReply(answer);
      if reply == Once { return Outcome(true, true); }
      if reply == Rejected || reply == Unsupported { return Outcome(true, false); }
      if HighTier(p) { return Outcome(true, reply == Always); }
      var key := DeriveKey(p);
      if key.None? { return Outcome(true, false); }
      if reply == ForSession {
        if e.session.None? { return Outcome(true, false); }
        ApproveSession(e.session.value, key.value);
        return Outcome(true, true);
      }
      if !e.hasStore { return Outcome(true, false); }
      Upsert(key.value, if reply == Always then AlwaysApprove else AlwaysDeny);
      return Outcome(true, reply == Always);
    }
  }
}

/** Histories of one policy state: what must have happened before an action runs unasked. */
module PolicyHistory {
  import opened Options
  import opened PermissionKeys
  import opened Policy
  import opened PolicyReplies

  datatype Event =
    | Proposed(engine: Engine, proposal: Proposal, answer: string)
    | SessionCleared(session: string)
    | RuleRevoked(key: string)

  function Next(s: State, e: Event): State {
    match e
    case Proposed(engine, p, answer) => Apply(engine, s, p, answer).1
    case SessionCleared(session) => s.(grants := s.grants - {session})
    case RuleRevoked(key) => s.(rules := s.rules - {key})
  }

  /** A whole history, from an empty store and no grants. */
  ghost predicate IsHistory(states: seq<State>, events: seq<Event>) {
    && |states| == |events| + 1 && states[0] == State(map[], map[])
    && forall i :: 0 <= i < |events| ==> states[i + 1] == Next(states[i], events[i])
  }

  /** Event i asked a human about key k, and the answer says this. */
  ghost predicate AskedAbout(states: seq<State>, events: seq<Event>, i: int, k: string, reply: Reply)
  {
    0 <= i < |events| < |states| && events[i].Proposed?
    && Decide(events[i].engine, states[i], events[i].proposal).verdict == RequireApproval
    && DeriveKey(events[i].proposal) == Some(k) && Means(events[i].answer, reply)
  }

  ghost predicate NotRevoked(events: seq<Event>, from: int, to: int, k: string) {
    forall j :: from < j < to && 0 <= j < |events| ==> events[j] != RuleRevoked(k)
  }

  ghost predicate NotCleared(events: seq<Event>, from: int, to: int, session: string) {
    forall j :: from < j < to && 0 <= j < |events| ==> events[j] != SessionCleared(session)
  }

  /** An engine with the store got this answer about k before n, and nobody revoked it since. */
  ghost predicate Taught(states: seq<State>, events: seq<Event>, n: int, k: string, reply: Reply) {
    exists i :: 0 <= i < n && AskedAbout(states, events, i, k, reply) && events[i].engine.hasStore && NotRevoked(events, i, n, k)
  }

  ghost predicate GrantedInSession(states: seq<State>, events: seq<Event>, n: int, k: string, session: string) {
    exists i :: 0 <= i < n && AskedAbout(states, events, i, k, ForSession)
             && events[i].engine.session == Some(session) && NotCleared(events, i, n, session)
  }

  /** How one proposal can change the rule or the grants of a key. */
  lemma EffectOfProposal(s: State, e: Event, k: string)
    requires e.Proposed?
    ensures var s' := Next(s, e);
            var asked := Decide(e.engine, s, e.proposal).verdict == RequireApproval && DeriveKey(e.proposal) == Some(k);
            && (k in s'.rules ==>
                  || (k in s.rules && s'.rules[k].effect == s.rules[k].effect)
                  || (asked && e.engine.hasStore && Means(e.answer, if s'.rules[k].effect == AlwaysApprove then Always else Never)))
            && (forall sk :: sk in s'.grants && k in s'.grants[sk] ==>
                  || (sk in s.grants && k in s.grants[sk])
                  || (asked && Means(e.answer, ForSession) && e.engine.session == Some(sk)))
            && (k in s.rules ==> k in s'.rules)
  {
    hide NormalizeReply, DeriveKey, IsLogWrite, IsBriefWrite, Means;
    ReplyIsWhatItSays(e.answer, Always);
    ReplyIsWhatItSays(e.answer, Never);
    ReplyIsWhatItSays(e.answer, ForSession);
  }

  lemma {:induction false} RulesWereTaught(states: seq<State>, events: seq<Event>, n: nat, k: string)
    requires IsHistory(states, events) && n <= |events|
    ensures k in states[n].rules ==> Taught(states, events, n, k, if states[n].rules[k].effect == AlwaysApprove then Always else Never)
  {
    hide Decide, Apply, Means, DeriveKey;
    if n > 0 && k in states[n].rules {
      var e := events[n - 1];
      RulesWereTaught(states, events, n - 1, k);
      var reply := if states[n].rules[k].effect == AlwaysApprove then Always else Never;
      if e.Proposed? { EffectOfProposal(states[n - 1], e, k); }
      if e.Proposed? && AskedAbout(states, events, n - 1, k, reply) && e.engine.hasStore {
        assert NotRevoked(events, n - 1, n, k);
      } else {
        var i :| 0 <= i < n - 1 && AskedAbout(states, events, i, k, reply) && events[i].engine.hasStore && NotRevoked(events, i, n - 1, k);
        assert NotRevoked(events, i, n, k);
      }
    }
  }

  lemma {:induction false} GrantsWereGiven(states: seq<State>, events: seq<Event>, n: nat, k: string, session: string)
    requires IsHistory(states, events) && n <= |events|
    ensures session in states[n].grants && k in states[n].grants[session] ==> GrantedInSession(states, events, n, k, session)
  {
    hide Decide, Apply, Means, DeriveKey;
    if n > 0 && session in states[n].grants && k in states[n].grants[session] {
      var e := events[n - 1];
      GrantsWereGiven(states, events, n - 1, k, session);
      if e.Proposed? { EffectOfProposal(states[n - 1], e, k); }
      if e.Proposed? && AskedAbout(states, events, n - 1, k, ForSession) && e.engine.session == Some(session) {
        assert NotCleared(events, n - 1, n, session);
      } else {
        var i :| 0 <= i < n - 1 && AskedAbout(states, events, i, k, ForSession)
              && events[i].engine.session == Some(session) && NotCleared(events, i, n - 1, session);
        assert NotCleared(events, i, n, session);
      }
    }
  }

  ghost predicate SameTriple(p: Proposal, q: Proposal) {
    p.connector == q.connector && p.mode == q.mode && p.ref == q.ref
  }

  /** The earlier answer that lets `p` run unasked, about the same connector, mode and ref. */
  ghost predicate EarlierConsent(states: seq<State>, events: seq<Event>, n: int, p: Proposal, session: Option<string>) {
    exists i :: 0 <= i < n <= |events| < |states| && events[i].Proposed?
      && SameTriple(events[i].proposal, p) && DeriveKey(p).Some?
      && Decide(events[i].engine, states[i], events[i].proposal).verdict == RequireApproval
      && (|| (Means(events[i].answer, Always) && NotRevoked(events, i, n, DeriveKey(p).value))
          || (Means(events[i].answer, ForSession) && session.Some? && events[i].engine.session == session
              && NotCleared(events, i, n, session.value)))
  }

  /** Appending to the logs, and appending or creating briefs. */
  ghost predicate BuiltinWrite(p: Proposal) {
    && p.sideEffect == Write
    && exists r ::
         && Shows(p.ref, r)
         && (|| (Shows(p.mode, "append") && (Below(r, "AI/Logs/") || Below(r, "agentos/logs/")))
             || ((Shows(p.mode, "append") || Shows(p.mode, "create")) && (Below(r, "AI/Briefs/") || Below(r, "agentos/briefs/"))))
  }

  /** In every history, an action runs without a prompt only if it reads, is a built-in log or brief
      write, or a human consented earlier: always_approve not revoked, or session in the same session
      not cleared, for the same connector, mode and ref. */
  lemma UnaskedOnlyWithConsent(states: seq<State>, events: seq<Event>, n: nat)
    requires IsHistory(states, events) && n < |events| && events[n].Proposed?
    requires events[n].engine.mode == Manual
    requires Apply(events[n].engine, states[n], events[n].proposal, events[n].answer).0 == Outcome(false, true)
    ensures var p := events[n].proposal;
            || p.sideEffect == Read || p.sideEffect == Nothing || BuiltinWrite(p)
            || EarlierConsent(states, events, n, p, events[n].engine.session)
  {
    var e, s, p := events[n].engine, states[n], events[n].proposal;
    BuiltinWritesAre(p);
    hide IsLogWrite, IsBriefWrite, Below;
    AllowIsBaseAllow(e, s, p);
    if !(p.sideEffect == Read || p.sideEffect == Nothing || IsLogWrite(p) || IsBriefWrite(p)) {
      ConsentBehindAllow(states, events, n);
    }
  }

  lemma {:induction false} PluginsOnlyRestrict(base: Decision, plugins: seq<PluginAnswer>)
    ensures PluginVerdict(base, plugins) == base || PluginVerdict(base, plugins).verdict == Deny
  {
    if plugins != [] { PluginsOnlyRestrict(base, plugins[1..]); }
  }

  lemma AllowIsBaseAllow(e: Engine, s: State, p: Proposal)
    ensures Decide(e, s, p).verdict == Allow ==> BaseDecision(e, s, p).verdict == Allow
    ensures Decide(e, s, p).verdict == RequireApproval ==> BaseDecision(e, s, p).verdict == RequireApproval
    ensures BaseDecision(e, s, p).verdict == Deny ==> Decide(e, s, p).verdict == Deny
  {
    hide BaseDecision;
    if e.Composite? { PluginsOnlyRestrict(BaseDecision(e, s, p), e.plugins); }
  }

  lemma ConsentBehindAllow(states: seq<State>, events: seq<Event>, n: nat)
    requires IsHistory(states, events) && n < |events| && events[n].Proposed?
    requires events[n].engine.mode == Manual
    requires var p := events[n].proposal;
             BaseDecision(events[n].engine, states[n], p).verdict == Allow
             && !(p.sideEffect == Read || p.sideEffect == Nothing || IsLogWrite(p) || IsBriefWrite(p))
    ensures EarlierConsent(states, events, n, events[n].proposal, events[n].engine.session)
  {
    hide IsLogWrite, IsBriefWrite, Means, DeriveKey, Decide, Next;
    var e, s, p := events[n].engine, states[n], events[n].proposal;
    var k := DeriveKey(p).value;
    var i: int;
    if SessionGranted(e, s, p) {
      GrantsWereGiven(states, events, n, k, e.session.value);
      i :| 0 <= i < n && AskedAbout(states, events, i, k, ForSession)
             && events[i].engine.session == e.session && NotCleared(events, i, n, e.session.value);
    } else {
      RulesWereTaught(states, events, n, k);
      i :| 0 <= i < n && AskedAbout(states, events, i, k, Always) && events[i].engine.hasStore && NotRevoked(events, i, n, k);
    }
    KeyIsInjective(events[i].proposal, p);
  }

  // ---- Denials and approvals last ----

  /** While k's rule is `always_deny`, no engine that consults the store carries out an action with that key. */
  lemma DeniedWhileRuled(e: Engine, s: State, p: Proposal, answer: string, k: string)
    requires e.mode == Manual && e.hasStore && DeriveKey(p) == Some(k) && k in s.rules && s.rules[k].effect == AlwaysDeny
    ensures Apply(e, s, p, answer).0 == Outcome(false, false)
  {
    hide DeriveKey;
    AllowIsBaseAllow(e, s, p);
  }

  lemma {:induction false} DenialPersists(states: seq<State>, events: seq<Event>, i: nat, n: nat, k: string)
    requires IsHistory(states, events) && i < n <= |events|
    requires AskedAbout(states, events, i, k, Never) && events[i].engine.hasStore && NotRevoked(events, i, n, k)
    ensures k in states[n].rules && states[n].rules[k].effect == AlwaysDeny
    decreases n
  {
    hide Means, Next, Decide, DeriveKey;
    if n == i + 1 {
      StoredDenial(states[i], events[i], k);
    } else {
      assert NotRevoked(events, i, n - 1, k);
      DenialPersists(states, events, i, n - 1, k);
      StepKeepsDenial(states[n - 1], events[n - 1], k);
    }
  }

  lemma StoredDenial(s: State, e: Event, k: string)
    requires e.Proposed? && Decide(e.engine, s, e.proposal).verdict == RequireApproval && e.engine.hasStore
    requires DeriveKey(e.proposal) == Some(k) && Means(e.answer, Never)
    ensures k in Next(s, e).rules && Next(s, e).rules[k].effect == AlwaysDeny
  {
    hide NormalizeReply, Decide, Counted, Means;
    ReplyIsWhatItSays(e.answer, Never);
    assert !HighTier(e.proposal);
  }

  lemma StepKeepsDenial(s: State, e: Event, k: string)
    requires k in s.rules && s.rules[k].effect == AlwaysDeny && e != RuleRevoked(k)
    ensures k in Next(s, e).rules && Next(s, e).rules[k].effect == AlwaysDeny
  {
    hide NormalizeReply, DeriveKey, IsLogWrite, IsBriefWrite;
    if e.Proposed? {
      AllowIsBaseAllow(e.engine, s, e.proposal);
    }
  }

  /** After always_deny no engine in manual mode writes anything with the same connector, mode and ref
      until the rule is revoked, whatever engines ran in between. */
  lemma DenialHolds(states: seq<State>, events: seq<Event>, i: nat, n: nat)
    requires IsHistory(states, events) && i < n < |events| && events[i].Proposed? && events[n].Proposed?
    requires DeriveKey(events[i].proposal).Some? && AskedAbout(states, events, i, DeriveKey(events[i].proposal).value, Never)
    requires events[i].engine.hasStore && events[n].engine.hasStore
    requires NotRevoked(events, i, n, DeriveKey(events[i].proposal).value)
    requires events[n].engine.mode == Manual
    requires SameTriple(events[i].proposal, events[n].proposal)
    requires events[n].proposal.tool == "memory.write" && events[n].proposal.sideEffect == Write
    ensures Apply(events[n].engine, states[n], events[n].proposal, events[n].answer).0 == Outcome(false, false)
  {
    var k := DeriveKey(events[i].proposal).value;
    assert DeriveKey(events[n].proposal) == Some(k);
    DenialPersists(states, events, i, n, k);
    DeniedWhileRuled(events[n].engine, states[n], events[n].proposal, events[n].answer, k);
  }

  lemma StoredApproval(s: State, e: Event, k: string)
    requires e.Proposed? && Decide(e.engine, s, e.proposal).verdict == RequireApproval && e.engine.hasStore
    requires DeriveKey(e.proposal) == Some(k) && Means(e.answer, Always)
    ensures k in Next(s, e).rules && Next(s, e).rules[k].effect == AlwaysApprove
  {
    hide NormalizeReply, Decide, Counted, Means;
    ReplyIsWhatItSays(e.answer, Always);
    assert !HighTier(e.proposal);
  }

  /** An engine with the store never asks again about an approved key, and one without it stores nothing. */
  lemma StepKeepsApproval(s: State, e: Event, k: string)
    requires k in s.rules && s.rules[k].effect == AlwaysApprove && e != RuleRevoked(k)
    ensures k in Next(s, e).rules && Next(s, e).rules[k].effect == AlwaysApprove
  {
    hide NormalizeReply, DeriveKey, IsLogWrite, IsBriefWrite;
    if e.Proposed? {
      AllowIsBaseAllow(e.engine, s, e.proposal);
    }
  }

  lemma {:induction false} ApprovalPersists(states: seq<State>, events: seq<Event>, i: nat, n: nat, k: string)
    requires IsHistory(states, events) && i < n <= |events|
    requires AskedAbout(states, events, i, k, Always) && events[i].engine.hasStore && NotRevoked(events, i, n, k)
    ensures k in states[n].rules && states[n].rules[k].effect == AlwaysApprove
    decreases n
  {
    hide Means, Next, Decide, DeriveKey;
    if n == i + 1 {
      StoredApproval(states[i], events[i], k);
    } else {
      assert NotRevoked(events, i, n - 1, k);
      ApprovalPersists(states, events, i, n - 1, k);
      StepKeepsApproval(states[n - 1], events[n - 1], k);
    }
  }

  predicate AllPermit(plugins: seq<PluginAnswer>) {
    plugins == [] || (plugins[0].Permits? && AllPermit(plugins[1..]))
  }

  lemma {:induction false} PluginsAllowIff(base: Decision, plugins: seq<PluginAnswer>)
    requires base.verdict == Allow
    ensures PluginVerdict(base, plugins).verdict == if AllPermit(plugins) then Allow else Deny
  {
    if plugins != [] && plugins[0].Permits? { PluginsAllowIff(base, plugins[1..]); }
  }

  lemma AllowedWhileRuled(e: Engine, s: State, p: Proposal, answer: string, k: string)
    requires e.mode == Manual && e.hasStore && DeriveKey(p) == Some(k) && k in s.rules && s.rules[k].effect == AlwaysApprove
    ensures Apply(e, s, p, answer).0 == Outcome(false, e.Local? || AllPermit(e.plugins))
  {
    assert !HighTier(p);
    hide DeriveKey, HighTier, NormalizeReply;
    assert BaseDecision(e, s, p).verdict == Allow;
    if e.Composite? { PluginsAllowIff(BaseDecision(e, s, p), e.plugins); }
  }

  /** After always_approve every write with the same connector, mode and ref runs unasked, until the rule
      is revoked, under every engine in manual mode with the store, unless a plugin denies it. */
  lemma ApprovalHolds(states: seq<State>, events: seq<Event>, i: nat, n: nat)
    requires IsHistory(states, events) && i < n < |events| && events[i].Proposed? && events[n].Proposed?
    requires DeriveKey(events[i].proposal).Some? && AskedAbout(states, events, i, DeriveKey(events[i].proposal).value, Always)
    requires events[i].engine.hasStore && events[n].engine.hasStore && events[n].engine.mode == Manual
    requires NotRevoked(events, i, n, DeriveKey(events[i].proposal).value)
    requires SameTriple(events[i].proposal, events[n].proposal)
    requires events[n].proposal.tool == "memory.write" && events[n].proposal.sideEffect == Write
    ensures var e := events[n].engine;
            Apply(e, states[n], events[n].proposal, events[n].answer).0 == Outcome(false, e.Local? || AllPermit(e.plugins))
  {
    var k := DeriveKey(events[i].proposal).value;
    assert DeriveKey(events[n].proposal) == Some(k);
    ApprovalPersists(states, events, i, n, k);
    AllowedWhileRuled(events[n].engine, states[n], events[n].proposal, events[n].answer, k);
  }

  /** Payment and privileged actions never run: not in manual mode, and not in a composite even when off. */
  lemma HighTierNeverRuns(e: Engine, s: State, p: Proposal, answer: string)
    requires (p.sideEffect == Payment || p.sideEffect == Privileged) && (e.mode == Manual || e.Composite?)
    ensures Apply(e, s, p, answer).0 == Outcome(false, false) && Decide(e, s, p) == Decision(Deny, "default")
  {
  }

  // ---- Exactly what runs unasked ----

  lemma GrantStored(s: State, e: Event, k: string, session: string)
    requires e.Proposed? && Decide(e.engine, s, e.proposal).verdict == RequireApproval && e.engine.session == Some(session)
    requires DeriveKey(e.proposal) == Some(k) && Means(e.answer, ForSession)
    ensures session in Next(s, e).grants && k in Next(s, e).grants[session]
  {
    hide NormalizeReply, Decide, Counted, Means;
    ReplyIsWhatItSays(e.answer, ForSession);
    assert !HighTier(e.proposal);
  }

  lemma StepKeepsGrant(s: State, e: Event, k: string, session: string)
    requires session in s.grants && k in s.grants[session] && e != SessionCleared(session)
    ensures session in Next(s, e).grants && k in Next(s, e).grants[session]
  {
    hide NormalizeReply, DeriveKey, Decide, Counted;
  }

  lemma {:induction false} GrantPersists(states: seq<State>, events: seq<Event>, i: nat, n: nat, k: string, session: string)
    requires IsHistory(states, events) && i < n <= |events|
    requires AskedAbout(states, events, i, k, ForSession) && events[i].engine.session == Some(session) && NotCleared(events, i, n, session)
    ensures session in states[n].grants && k in states[n].grants[session]
    decreases n
  {
    hide Means, Next;
    if n == i + 1 {
      GrantStored(states[i], events[i], k, session);
    } else {
      assert NotCleared(events, i, n - 1, session);
      GrantPersists(states, events, i, n - 1, k, session);
      StepKeepsGrant(states[n - 1], events[n - 1], k, session);
    }
  }

  /** The store holds a rule about k exactly when an engine with the store got that answer about it and
      nobody revoked it since; a session holds a grant exactly when it was given in it and not cleared since. */
  lemma StoreIsWhatWasSaid(states: seq<State>, events: seq<Event>, n: nat, k: string, effect: Effect, session: string)
    requires IsHistory(states, events) && n <= |events|
    ensures k in states[n].rules && states[n].rules[k].effect == effect <==>
              Taught(states, events, n, k, if effect == AlwaysApprove then Always else Never)
    ensures session in states[n].grants && k in states[n].grants[session] <==> GrantedInSession(states, events, n, k, session)
  {
    hide IsHistory, Means, Decide, DeriveKey, NotRevoked, NotCleared;
    RulesWereTaught(states, events, n, k);
    GrantsWereGiven(states, events, n, k, session);
    var reply := if effect == AlwaysApprove then Always else Never;
    if Taught(states, events, n, k, reply) {
      var i :| 0 <= i < n && AskedAbout(states, events, i, k, reply) && events[i].engine.hasStore && NotRevoked(events, i, n, k);
      if effect == AlwaysApprove { ApprovalPersists(states, events, i, n, k); } else { DenialPersists(states, events, i, n, k); }
    }
    if GrantedInSession(states, events, n, k, session) {
      var i :| 0 <= i < n && AskedAbout(states, events, i, k, ForSession)
            && events[i].engine.session == Some(session) && NotCleared(events, i, n, session);
      GrantPersists(states, events, i, n, k, session);
    }
  }

  /** What was said about the action before event n, as far as the engine consults it. */
  ghost predicate SaidBefore(states: seq<State>, events: seq<Event>, n: int, e: Engine, p: Proposal, reply: Reply) {
    match DeriveKey(p)
    case None => false
    case Some(k) =>
      if reply == ForSession then e.session.Some? && GrantedInSession(states, events, n, k, e.session.value)
      else e.hasStore && Taught(states, events, n, k, reply)
  }

  lemma RulesAreSayings(states: seq<State>, events: seq<Event>, n: nat, e: Engine, p: Proposal)
    requires IsHistory(states, events) && n <= |events|
    ensures HasRule(e, states[n], p, AlwaysDeny) <==> SaidBefore(states, events, n, e, p, Never)
    ensures HasRule(e, states[n], p, AlwaysApprove) <==> SaidBefore(states, events, n, e, p, Always)
    ensures HasGrant(e, states[n], p) <==> SaidBefore(states, events, n, e, p, ForSession)
  {
    hide IsHistory, Taught, GrantedInSession, DeriveKey;
    if DeriveKey(p).Some? {
      var k, session := DeriveKey(p).value, if e.session.Some? then e.session.value else "";
      StoreIsWhatWasSaid(states, events, n, k, AlwaysApprove, session);
      StoreIsWhatWasSaid(states, events, n, k, AlwaysDeny, session);
    }
  }

  /** The whole policy in manual mode, over every history, in terms of what people said: an action runs
      unasked if and only if it is no payment or privileged action, no unrevoked always_deny and no plugin
      stands against it, and it reads, is a built-in write, or an uncleared session answer or an unrevoked
      always_approve speaks for it; it is asked about if and only if nothing of all this holds. */
  lemma UnaskedIff(states: seq<State>, events: seq<Event>, n: nat)
    requires IsHistory(states, events) && n < |events| && events[n].Proposed? && events[n].engine.mode == Manual
    ensures var e, p := events[n].engine, events[n].proposal;
            var (outcome, _) := Apply(e, states[n], p, events[n].answer);
            var barred := p.sideEffect == Payment || p.sideEffect == Privileged || SaidBefore(states, events, n, e, p, Never)
                          || (e.Composite? && !AllPermit(e.plugins));
            var free := p.sideEffect == Read || p.sideEffect == Nothing || BuiltinWrite(p)
                        || SaidBefore(states, events, n, e, p, ForSession) || SaidBefore(states, events, n, e, p, Always);
            && (outcome == Outcome(false, true) <==> !barred && free)
            && (outcome == Outcome(false, false) <==> barred)
            && (outcome.prompted <==> !barred && !free)
  {
    hide SaidBefore, BaseDecision, Next, HasRule, HasGrant, DeriveKey, Counted, NormalizeReply, IsLogWrite, IsBriefWrite, Below;
    var e, s, p := events[n].engine, states[n], events[n].proposal;
    RulesAreSayings(states, events, n, e, p);
    BuiltinWritesAre(p);
    DecisionByOutcome(e, s, p);
    if e.Composite? { PluginsDecide(BaseDecision(e, s, p), e.plugins); }
  }

  lemma PluginsDecide(base: Decision, plugins: seq<PluginAnswer>)
    ensures PluginVerdict(base, plugins).verdict == if AllPermit(plugins) then base.verdict else Deny
  {
    if plugins != [] && plugins[0].Permits? { PluginsDecide(base, plugins[1..]); }
  }

  /** What a human's answer does, for every text: the action runs at once on a yes; on a session answer in a
      session, and on always_approve with a store, if its key can be remembered; and on nothing else. Only
      these answers, and always_deny with a store, change anything. */
  lemma AnswerDecides(e: Engine, s: State, p: Proposal, text: string)
    requires Decide(e, s, p).verdict == RequireApproval
    ensures var (outcome, s') := Apply(e, s, p, text);
            var key := DeriveKey(p);
            var grants, teaches := SaysSession(text) && key.Some? && e.session.Some?, key.Some? && e.hasStore;
            && outcome.prompted
            && (outcome.executed <==> SaysYes(text) || grants || (SaysAlways(text) && teaches))
            && s'.grants == (if grants
                             then s.grants[e.session.value := (if e.session.value in s.grants then s.grants[e.session.value] else {}) + {key.value}]
                             else s.grants)
            && s'.rules == (if SaysAlways(text) && teaches then s.rules[key.value := Rule(AlwaysApprove, 0, 0)]
                            else if SaysNever(text) && teaches then s.rules[key.value := Rule(AlwaysDeny, 0, 0)]
                            else s.rules)
    ensures DeriveKey(p).None? ==> (Apply(e, s, p, text).0.executed <==> SaysYes(text))
  {
    hide NormalizeReply, DeriveKey, BaseDecision, Means, SaysYes, SaysSession, SaysAlways, SaysNever, SaysNo, Counted;
    AskedMeansOpen(e, s, p);
    var reply := NormalizeReply(text);
    RepliesSay(text);
  }

  lemma RepliesSay(text: string)
    ensures SaysYes(text) <==> NormalizeReply(text) == Once
    ensures SaysSession(text) <==> NormalizeReply(text) == ForSession
    ensures SaysAlways(text) <==> NormalizeReply(text) == Always
    ensures SaysNever(text) <==> NormalizeReply(text) == Never
  {
    hide NormalizeReply, SaysYes, SaysSession, SaysAlways, SaysNever, SaysNo;
    ReplyIsWhatItSays(text, Once);
    ReplyIsWhatItSays(text, ForSession);
    ReplyIsWhatItSays(text, Always);
    ReplyIsWhatItSays(text, Never);
  }

  /** Nothing is asked about a high tier or a key with a rule, and asking counts nothing. */
  lemma AskedMeansOpen(e: Engine, s: State, p: Proposal)
    requires Decide(e, s, p).verdict == RequireApproval
    ensures !HighTier(p) && Counted(e, s, p) == s.rules
    ensures e.hasStore && DeriveKey(p).Some? ==> DeriveKey(p).value !in s.rules
  {
    hide DeriveKey, IsLogWrite, IsBriefWrite;
    AllowIsBaseAllow(e, s, p);
  }

  /** What an evaluation without a prompt leaves behind: no rule or grant comes or goes and no effect changes;
      one more approval or denial is counted exactly for the rule that decided. */
  lemma UnaskedCounts(e: Engine, s: State, p: Proposal, text: string, k: string)
    requires Decide(e, s, p).verdict != RequireApproval
    ensures var s', base := Apply(e, s, p, text).1, BaseDecision(e, s, p);
            && s'.grants == s.grants && s'.rules.Keys == s.rules.Keys
            && (k in s.rules ==>
                  var decided := base.policyId == "learned" && DeriveKey(p) == Some(k);
                  && s'.rules[k].effect == s.rules[k].effect
                  && s'.rules[k].approveCount == s.rules[k].approveCount + (if decided && base.verdict == Allow then 1 else 0)
                  && s'.rules[k].denyCount == s.rules[k].denyCount + (if decided && base.verdict == Deny then 1 else 0))
  {
    hide DeriveKey, NormalizeReply, Counted, IsLogWrite, IsBriefWrite;
    CountersRise(e, s, p);
    if BaseDecision(e, s, p).policyId == "learned" { LearnedEffect(e, s, p); }
  }

  lemma LearnedEffect(e: Engine, s: State, p: Proposal)
    requires BaseDecision(e, s, p).policyId == "learned"
    ensures !HighTier(p) && DeriveKey(p).Some? && DeriveKey(p).value in s.rules
    ensures var d := BaseDecision(e, s, p);
            if s.rules[DeriveKey(p).value].effect == AlwaysDeny then d.verdict == Deny else d.verdict == Allow
  {
    hide DeriveKey, IsLogWrite, IsBriefWrite;
  }

  /** No answer about a payment or a privileged action is remembered. */
  lemma HighTierIsNotRemembered(e: Engine, s: State, p: Proposal, reply: Reply)
    requires p.sideEffect == Payment || p.sideEffect == Privileged
    ensures Answered(e, s, p, reply) == (Outcome(true, reply == Once || reply == Always), s)
  {
  }
}
