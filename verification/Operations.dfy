/** Plan approval and guarded execution (wpm/operation.c).  The durable effects of
    an invocation are its history; a small automaton says which histories an
    approved plan allows, and every call keeps to it.  */
module Operations {
  import opened JsonFields
  import Strings

  type Digest = string

  const ZERO: Digest := "\0\0\0\0\0\0\0\0\0\0\0\0\0\0\0\0\0\0\0\0\0\0\0\0\0\0\0\0\0\0\0\0"
  const PLAN_LIMIT: nat := 256
  const PHASE_LIMIT: nat := 16
  const PHASE_SIZE: nat := 32

  /** A process exit code. */
  type ExitCode = n: nat | n < 0x1_0000_0000

  datatype Identity = Identity(name: string, version: string, arch: string)

  /** What approval fixes about an item. */
  datatype Plan = Plan(action: string, archive: string, source: string, oldVersion: string, identity: Identity,
                       signer: string, fingerprint: Digest, file: string, recoveryId: string, retained: string)

  /** The contents of a recovery record. */
  datatype Record = Record(plan: Plan, planDigest: string, created: string, updated: string, status: string, phase: string,
                           external: bool, exit: Option<ExitCode>, retainedState: nat, completed: seq<string>)

  /** A plan item with its progress. */
  datatype Item = Item(plan: Plan, consumed: bool, started: bool, journalFailed: bool, external: bool, created: string,
                       phase: string, exit: Option<ExitCode>, completed: seq<string>, retainedState: nat, failed: bool)

  function Planned(plan: Plan): Item {
    Item(plan, false, false, false, false, "", "", None, [], 0, false)
  }

  datatype Event =
    | ReadOnly
    | Approve(plans: seq<Plan>, state: Digest, digest: string)
    | Start(i: nat, state: Digest)
    | Commit(i: nat, record: Record)
    | Refused(i: nat)
    | Checked(i: nat, fingerprint: Digest, file: string, state: Digest)
    | Process(i: nat, phase: string)
    | Complete(i: nat, state: Digest)

  predicate SameTarget(a: Plan, b: Plan) {
    a.action == b.action && Strings.Fold(a.archive) == Strings.Fold(b.archive)
  }

  ghost predicate DistinctTargets(plans: seq<Plan>) {
    forall i, j :: 0 <= i < j < |plans| ==> !SameTarget(plans[i], plans[j])
  }

  // ----- the histories an approved plan allows -----

  /** `state` is the controlled state of approval or of the last completion,
      `digest` that of the approved plan; `checked` says that input and state of
      the current item were found unchanged since it started. */
  datatype Run = Run(approved: bool, plans: seq<Plan>, digest: string, state: Digest, used: set<nat>, current: Option<nat>,
                     checked: bool, broken: set<nat>, frozen: bool)

  const START: Run := Run(false, [], "", ZERO, {}, None, false, {}, false)

  ghost predicate Allowed(r: Run, e: Event) {
    match e
    case ReadOnly => true
    case Approve(plans, _, _) => !r.approved && !r.frozen && DistinctTargets(plans)
    case Start(i, state) => r.approved && r.current == None && i < |r.plans| && i !in r.used && state == r.state
    case Commit(i, record) =>
      && r.current == Some(i) && i !in r.broken && !r.frozen && i < |r.plans|
      && record.plan == r.plans[i] && record.planDigest == r.digest
    case Refused(i) => r.current == Some(i)
    case Checked(i, fingerprint, file, state) =>
      && r.current == Some(i) && i !in r.broken && !r.frozen && i < |r.plans|
      && fingerprint == r.plans[i].fingerprint && file == r.plans[i].file && state == r.state
    case Process(i, phase) => r.current == Some(i) && (phase == "script" ==> r.checked)
    case Complete(i, _) => r.current == Some(i) && i !in r.broken
  }

  function Next(r: Run, e: Event): Run {
    match e
    case ReadOnly => r.(frozen := true)
    case Approve(plans, state, digest) => r.(approved := true, plans := plans, state := state, digest := digest)
    case Start(i, _) => r.(used := r.used + {i}, current := Some(i), checked := false)
    case Commit(_, _) => r
    case Refused(i) => r.(broken := r.broken + {i})
    case Checked(_, _, _, _) => r.(checked := true)
    case Process(_, _) => r
    case Complete(_, state) => r.(current := None, state := state)
  }

  function After(h: seq<Event>): Run {
    if h == [] then START else Next(After(h[..|h| - 1]), h[|h| - 1])
  }

  ghost predicate Authorised(h: seq<Event>) {
    h == [] || (Authorised(h[..|h| - 1]) && Allowed(After(h[..|h| - 1]), h[|h| - 1]))
  }

  lemma Extended(h: seq<Event>, e: Event)
    ensures After(h + [e]) == Next(After(h), e)
    ensures Authorised(h + [e]) <==> Authorised(h) && Allowed(After(h), e)
  {
    assert (h + [e])[..|h|] == h;
  }

  lemma {:induction false} Prefix(h: seq<Event>, n: nat)
    requires Authorised(h) && n <= |h|
    ensures Authorised(h[..n])
    ensures n < |h| ==> Allowed(After(h[..n]), h[n]) && After(h[..n + 1]) == Next(After(h[..n]), h[n])
    decreases |h|
  {
    var t := h[..n];
    if n < |h| {
      var init := h[..|h| - 1];
      Prefix(init, n);
      assert init[..n] == h[..n];
      assert h[..n + 1][..n] == h[..n] && h[..n + 1][n] == h[n];
      if n + 1 < |h| { assert init[n] == h[n]; }
    } else {
      assert t == h;
    }
  }

  lemma AtStart(h: seq<Event>)
    ensures After(h[..0]) == START
  {}

  /** What never goes back along a history. */
  predicate Later(a: Run, b: Run) {
    && a.used <= b.used && a.broken <= b.broken && (a.frozen ==> b.frozen)
    && (a.approved ==> b.approved && b.plans == a.plans && b.digest == a.digest)
  }

  lemma {:induction false} Advances(h: seq<Event>, p: nat, q: nat)
    requires Authorised(h) && p <= q <= |h|
    ensures Later(After(h[..p]), After(h[..q]))
    decreases q - p
  {
    if p < q {
      Advances(h, p, q - 1);
      Prefix(h, q - 1);
    }
  }

  /** No two approved plans have one action and archive. */
  lemma {:induction false} ApprovedIsDistinct(h: seq<Event>)
    requires Authorised(h)
    ensures DistinctTargets(After(h).plans)
  {
    if h != [] { ApprovedIsDistinct(h[..|h| - 1]); }
  }

  /** Every item runs at most once, is an approved one, differs from the others in
      action or archive, and the next one starts only after the one before has
      completed. */
  lemma StartsAreSerial(h: seq<Event>, p: nat, q: nat) returns (m: nat)
    requires Authorised(h) && p < q < |h| && h[p].Start? && h[q].Start?
    ensures h[p].i != h[q].i && h[p].i < |After(h).plans| && h[q].i < |After(h).plans|
    ensures !SameTarget(After(h).plans[h[p].i], After(h).plans[h[q].i])
    ensures p < m < q && h[m].Complete? && h[m].i == h[p].i
  {
    Prefix(h, p);
    Prefix(h, q);
    Advances(h, p + 1, q);
    Advances(h, p + 1, |h|);
    Advances(h, q + 1, |h|);
    assert h[..|h|] == h;
    ApprovedIsDistinct(h);
    m := CompletedBetween(h, p + 1, q, h[p].i);
  }

  lemma {:induction false} CompletedBetween(h: seq<Event>, p: nat, q: nat, i: nat) returns (m: nat)
    requires Authorised(h) && p <= q <= |h|
    requires After(h[..p]).current == Some(i) && After(h[..q]).current != Some(i)
    ensures p <= m < q && h[m].Complete? && h[m].i == i
    decreases q - p
  {
    hide Authorised, After;
    Prefix(h, q - 1);
    if After(h[..q - 1]).current == Some(i) {
      m := q - 1;
    } else {
      m := CompletedBetween(h, p, q - 1, i);
    }
  }

  function StateOf(e: Event): Option<Digest> {
    match e
    case Approve(_, s, _) => Some(s)
    case Complete(_, s) => Some(s)
    case _ => None
  }

  /** An item starts only in the controlled state of approval or, if items have
      completed, of the last completion. */
  lemma StartsInKnownState(h: seq<Event>, q: nat) returns (m: nat)
    requires Authorised(h) && q < |h| && h[q].Start?
    ensures m < q && StateOf(h[m]) == Some(h[q].state)
    ensures forall k :: m < k < q ==> StateOf(h[k]) == None
  {
    Prefix(h, q);
    m := LastState(h, q);
  }

  lemma {:induction false} LastState(h: seq<Event>, q: nat) returns (m: nat)
    requires Authorised(h) && q <= |h| && After(h[..q]).approved
    ensures m < q && StateOf(h[m]) == Some(After(h[..q]).state)
    ensures forall k :: m < k < q ==> StateOf(h[k]) == None
  {
    hide Authorised, After;
    AtStart(h);
    Prefix(h, q - 1);
    if StateOf(h[q - 1]).Some? {
      m := q - 1;
    } else {
      m := LastState(h, q - 1);
    }
  }

  /** A commit belongs to the item that started last and has not completed, and
      carries what was approved for it. */
  lemma CommitsAreCurrent(h: seq<Event>, q: nat) returns (p: nat)
    requires Authorised(h) && q < |h| && (h[q].Commit? || h[q].Process?)
    ensures p < q && h[p].Start? && h[p].i == h[q].i
    ensures forall k :: p < k < q ==> !h[k].Start? && !h[k].Complete?
    ensures h[q].Commit? ==> && h[q].i < |After(h).plans| && h[q].record.plan == After(h).plans[h[q].i]
                             && h[q].record.planDigest == After(h).digest
  {
    Prefix(h, q);
    Advances(h, q, |h|);
    assert h[..|h|] == h;
    p := StartOf(h, q, h[q].i);
    CurrentIsApproved(h, q);
  }

  lemma {:induction false} StartOf(h: seq<Event>, q: nat, i: nat) returns (p: nat)
    requires Authorised(h) && q <= |h| && After(h[..q]).current == Some(i)
    ensures p < q && h[p].Start? && h[p].i == i
    ensures forall k :: p < k < q ==> !h[k].Start? && !h[k].Complete?
  {
    hide Authorised, After;
    AtStart(h);
    Prefix(h, q - 1);
    if h[q - 1].Start? {
      p := q - 1;
    } else {
      p := StartOf(h, q - 1, i);
    }
  }

  lemma {:induction false} CurrentIsApproved(h: seq<Event>, q: nat)
    requires Authorised(h) && q <= |h|
    ensures After(h[..q]).current.Some? ==> After(h[..q]).approved && After(h[..q]).current.value < |After(h[..q]).plans|
  {
    if q > 0 {
      CurrentIsApproved(h, q - 1);
      Prefix(h, q - 1);
    } else {
      AtStart(h);
    }
  }

  /** After one failed commit of an item nothing more is committed for it, and it
      never completes; so nothing after it starts. */
  lemma FailedCommitIsFinal(h: seq<Event>, p: nat, q: nat)
    requires Authorised(h) && p < q < |h| && h[p].Refused?
    ensures !h[q].Commit? && !h[q].Complete? && !h[q].Start? && !h[q].Approve?
  {
    var i := h[p].i;
    Prefix(h, p);
    CurrentIsApproved(h, p);
    StaysBroken(h, p + 1, q, i);
    Prefix(h, q);
  }

  lemma {:induction false} StaysBroken(h: seq<Event>, p: nat, q: nat, i: nat)
    requires Authorised(h) && p <= q <= |h|
    requires After(h[..p]).current == Some(i) && i in After(h[..p]).broken && After(h[..p]).approved
    ensures After(h[..q]).current == Some(i) && i in After(h[..q]).broken && After(h[..q]).approved
    decreases q - p
  {
    if p < q {
      StaysBroken(h, p, q - 1, i);
      Prefix(h, q - 1);
    }
  }

  /** A script process is created only after input and controlled state of its
      item were found as approved, since the item started. */
  lemma ScriptsAreChecked(h: seq<Event>, q: nat) returns (p: nat, m: nat)
    requires Authorised(h) && q < |h| && h[q].Process? && h[q].phase == "script"
    ensures p < m < q && h[p].Start? && h[p].i == h[q].i && h[m].Checked? && h[m].i == h[q].i
    ensures forall k :: p < k < q ==> !h[k].Start? && !h[k].Complete?
    ensures h[q].i < |After(h).plans| && h[m].state == h[p].state
    ensures var plan := After(h).plans[h[q].i]; h[m].fingerprint == plan.fingerprint && h[m].file == plan.file
  {
    p := CommitsAreCurrent(h, q);
    Prefix(h, p);
    Prefix(h, q);
    CurrentIsApproved(h, q);
    Advances(h, q, |h|);
    assert h[..|h|] == h;
    m := CheckBetween(h, p, q);
  }

  /** Between a start and a process no item starts or completes, so the check is there. */
  lemma {:induction false} CheckBetween(h: seq<Event>, p: nat, q: nat) returns (m: nat)
    requires Authorised(h) && p < q <= |h| && h[p].Start? && After(h[..q]).checked
    requires forall k :: p < k < q ==> !h[k].Start? && !h[k].Complete?
    ensures p < m < q && h[m].Checked? && h[m].i == h[p].i && h[m].i < |After(h[..q]).plans| && h[m].state == h[p].state
    ensures h[m].fingerprint == After(h[..q]).plans[h[m].i].fingerprint && h[m].file == After(h[..q]).plans[h[m].i].file
    decreases q
  {
    hide Authorised, After;
    Prefix(h, q - 1);
    if h[q - 1].Checked? {
      m := q - 1;
      StateSince(h, p, q - 1);
    } else {
      m := CheckBetween(h, p, q - 1);
      Advances(h, q - 1, q);
      StateSince(h, p, q - 1);
    }
  }

  lemma {:induction false} StateSince(h: seq<Event>, p: nat, q: nat)
    requires Authorised(h) && p < q <= |h| && h[p].Start?
    requires forall k :: p < k < q ==> !h[k].Start? && !h[k].Complete?
    ensures After(h[..q]).current == Some(h[p].i) && After(h[..q]).state == h[p].state && After(h[..q]).approved
    decreases q
  {
    hide Authorised, After;
    Prefix(h, q - 1);
    if q - 1 > p { StateSince(h, p, q - 1); }
  }

  // ----- what runs for an item -----

  /** The phases for which a process was created. */
  function Ran(h: seq<Event>, i: nat): seq<string> {
    if h == [] then []
    else Ran(h[..|h| - 1], i) + if h[|h| - 1].Process? && h[|h| - 1].i == i then [h[|h| - 1].phase] else []
  }

  lemma RanNext(h: seq<Event>, e: Event, i: nat)
    ensures Ran(h + [e], i) == Ran(h, i) + if e.Process? && e.i == i then [e.phase] else []
  {
    assert (h + [e])[..|h|] == h;
  }

  /** For every completion its action and what had run for the item. */
  function Outcomes(h: seq<Event>): seq<(string, seq<string>)> {
    if h == [] then []
    else Outcomes(h[..|h| - 1]) + if h[|h| - 1].Complete? then [OutcomeOf(h[..|h| - 1], h[|h| - 1].i)] else []
  }

  function OutcomeOf(h: seq<Event>, i: nat): (string, seq<string>) {
    (if LastRecord(h, i).Some? then LastRecord(h, i).value.plan.action else "", Ran(h, i))
  }

  lemma OutcomesNext(h: seq<Event>, e: Event)
    ensures Outcomes(h + [e]) == Outcomes(h) + if e.Complete? then [OutcomeOf(h, e.i)] else []
  {
    assert (h + [e])[..|h|] == h;
  }

  /** Nothing but records lies between. */
  predicate Quiet(h: seq<Event>, g: seq<Event>) {
    h <= g && forall k :: |h| <= k < |g| ==> g[k].Commit? || g[k].Refused?
  }

  lemma {:induction false} QuietKeeps(h: seq<Event>, g: seq<Event>, i: nat)
    requires Quiet(h, g)
    ensures Ran(g, i) == Ran(h, i) && After(g).checked == After(h).checked && Outcomes(g) == Outcomes(h)
    decreases |g|
  {
    if |g| == |h| {
      assert g == h;
    } else {
      QuietKeeps(h, g[..|g| - 1], i);
    }
  }

  lemma QuietChain(f: seq<Event>, g: seq<Event>, h: seq<Event>)
    requires Quiet(f, g) && Quiet(g, h)
    ensures Quiet(f, h)
  {}

  lemma WrittenIsQuiet(i: nat, it: Item, now: Item, h: seq<Event>, g: seq<Event>, planDigest: string, phase: string, status: string, ok: bool)
    requires Written(i, it, now, h, g, planDigest, phase, status, ok)
    ensures Quiet(h, g)
  {}

  /** No process precedes the start of an item. */
  lemma {:induction false} NothingRanYet(h: seq<Event>, i: nat)
    requires Authorised(h) && i !in After(h).used
    ensures Ran(h, i) == []
  {
    if h != [] {
      CurrentIsUsed(h[..|h| - 1]);
      NothingRanYet(h[..|h| - 1], i);
    }
  }

  /** A read-only invocation commits nothing, and nothing is committed or run
      before approval. */
  lemma ReadOnlyNeverCommits(h: seq<Event>, p: nat, q: nat)
    requires Authorised(h) && p < q < |h| && h[p].ReadOnly?
    ensures !h[q].Commit? && !h[q].Approve?
  {
    Prefix(h, p);
    Advances(h, p + 1, q);
    Prefix(h, q);
  }

  lemma NothingBeforeApproval(h: seq<Event>, q: nat) returns (p: nat)
    requires Authorised(h) && q < |h| && !h[q].ReadOnly? && !h[q].Approve?
    ensures p < q && h[p].Approve?
  {
    Prefix(h, q);
    CurrentIsApproved(h, q);
    p := ApprovalBefore(h, q);
  }

  lemma {:induction false} ApprovalBefore(h: seq<Event>, q: nat) returns (p: nat)
    requires Authorised(h) && q <= |h| && After(h[..q]).approved
    ensures p < q && h[p].Approve?
  {
    hide Authorised, After;
    AtStart(h);
    Prefix(h, q - 1);
    if h[q - 1].Approve? { p := q - 1; } else { p := ApprovalBefore(h, q - 1); }
  }

  // ----- the calls -----

  /** What a call finds on the system: results of the operating system and of
      archive inspection. */
  datatype Seen = Seen(full: Option<string>, fingerprint: Option<Digest>, state: Option<Digest>,
                       inspected: Option<(Identity, string)>, recovery: Option<(string, string)>, file: Option<string>)

  /** A record shows an item as it stands. */
  predicate Shows(r: Record, it: Item, planDigest: string, phase: string, status: string) {
    && r.plan == it.plan && r.planDigest == planDigest && r.created == it.created && r.status == status && r.phase == phase
    && r.external == it.external && r.exit == it.exit && r.retainedState == it.retainedState && r.completed == it.completed
  }

  /** One `journal_write`: the item is `it` when the record is built and `now`
      afterwards. */
  ghost predicate Written(i: nat, it: Item, now: Item, h: seq<Event>, g: seq<Event>, planDigest: string,
                          phase: string, status: string, ok: bool) {
    var changed := it.(created := now.created);
    if ok then
      && !it.journalFailed && now == changed.(started := true, phase := phase)
      && |g| == |h| + 1 && g[..|h|] == h && g[|h|].Commit? && g[|h|].i == i && Shows(g[|h|].record, changed, planDigest, phase, status)
    else
      && now == changed.(journalFailed := true)
      && (g == h + [Refused(i)]
          || (&& !it.journalFailed && |g| == |h| + 2 && g[..|h|] == h && g[|h| + 1] == Refused(i)
              && g[|h|].Commit? && g[|h|].i == i && Shows(g[|h|].record, changed, planDigest, phase, status)))
  }

  /** A published record, whether or not the file is closed properly after it. */
  lemma CommitIsWritten(i: nat, it: Item, now: Item, h: seq<Event>, record: Record, planDigest: string, phase: string, status: string)
    requires !it.journalFailed && now == it.(created := now.created) && Shows(record, now, planDigest, phase, status)
    ensures Written(i, it, now.(started := true, phase := phase), h, h + [Commit(i, record)], planDigest, phase, status, true)
    ensures Written(i, it, now.(journalFailed := true), h, h + [Commit(i, record)] + [Refused(i)], planDigest, phase, status, false)
  {
    hide Shows;
    assert (h + [Commit(i, record)] + [Refused(i)])[..|h|] == h;
  }

  lemma RefusalIsWritten(i: nat, it: Item, now: Item, h: seq<Event>, planDigest: string, phase: string, status: string)
    requires now == it.(created := now.created)
    ensures Written(i, it, now.(journalFailed := true), h, h + [Refused(i)], planDigest, phase, status, false)
  {}

  function PlansOf(items: seq<Item>): (r: seq<Plan>)
    ensures |r| == |items| && forall i :: 0 <= i < |items| ==> r[i] == items[i].plan
  {
    seq(|items|, i requires 0 <= i < |items| => items[i].plan)
  }

  class Operation {
    var items: seq<Item>
    var collecting: bool
    var active: bool
    var assumeYes: bool
    var readOnly: bool
    var executing: Option<nat>
    var approvedState: Digest
    var selectedSource: string
    var approvedPlan: string
    ghost var history: seq<Event>

    /** The fields against the automaton's state. */
    ghost predicate Valid()
      reads this
    {
      var r := After(history);
      && Authorised(history)
      && (readOnly <==> r.frozen)
      && (collecting ==> active)
      && (!active || collecting ==> executing == None)
      && (executing.Some? ==> executing.value < |items|)
      && (active ==> r.approved == !collecting)
      && (active && collecting ==> Fresh(items))
      && (active && !collecting ==> Running(r, items, executing, approvedState) && r.digest == approvedPlan)
    }

    /** `wpm_operation_begin`, at process start. */
    constructor (yes: bool)
      ensures Valid() && active && collecting && !readOnly && items == [] && history == [] && selectedSource == ""
    {
      items, collecting, active, assumeYes, readOnly := [], true, true, yes, false;
      executing, approvedState, selectedSource, approvedPlan := None, ZERO, "", "";
      history := [];
    }

    /** `wpm_set_readonly(1)`, while plans are collected. */
    method SetReadOnly()
      requires Valid()
      modifies this`readOnly, this`history
      ensures Valid() && readOnly && history == old(history) + [ReadOnly]
    {
      Extended(history, ReadOnly);
      readOnly, history := true, history + [ReadOnly];
    }

    /** `wpm_operation_set_source` */
    method SetSource(source: string)
      requires Valid()
      modifies this`selectedSource
      ensures Valid() && selectedSource == source
    {
      selectedSource := source;
    }

    /** Build and publish a record. */
    method Publish(i: nat, it: Item, phase: string, status: string) returns (now: Item, ok: bool)
      requires Authorised(history) && Writable(After(history), i, it)
      requires readOnly == After(history).frozen && approvedPlan == After(history).digest
      modifies this`history
      ensures Written(i, it, now, old(history), history, approvedPlan, phase, status, ok)
      ensures Authorised(history)
      ensures After(history) == if ok then old(After(history)) else Next(old(After(history)), Refused(i))
      ensures readOnly ==> !ok && history == old(history) + [Refused(i)]
    {
      hide Authorised, After, Shows, Written;
      ghost var h := history;
      now, ok := it, false;
      var guarded: bool := *;
      if !it.journalFailed && !readOnly && guarded {
        var time: string := *;
        if now.created == "" { now := now.(created := time); }
        var published: bool := *;
        if published {
          var updated: string := *;
          var record := Record(it.plan, approvedPlan, now.created, updated, status, phase, it.external, it.exit, it.retainedState, it.completed);
          ShownAsIs(now, approvedPlan, updated, phase, status);
          Extended(h, Commit(i, record));
          CommitIsWritten(i, it, now, h, record, approvedPlan, phase, status);
          history := history + [Commit(i, record)];
          var closed: bool := *;
          if closed {
            now := now.(started := true, phase := phase);
            return now, true;
          }
        } else {
          RefusalIsWritten(i, it, now, h, approvedPlan, phase, status);
        }
      } else {
        RefusalIsWritten(i, it, now, h, approvedPlan, phase, status);
      }
      now := now.(journalFailed := true);
      Extended(history, Refused(i));
      history := history + [Refused(i)];
    }

    /** `journal_write`: publish a record of the item, or block it. */
    method JournalWrite(i: nat, phase: string, status: string, exit: Option<ExitCode>) returns (ok: bool)
      requires Valid() && active && !collecting && executing == Some(i)
      modifies this`items, this`history
      ensures Valid() && items == old(items)[i := items[i]]
      ensures Written(i, Exited(old(items[i]), exit), items[i], old(history), history, approvedPlan, phase, status, ok)
      ensures ok ==> !items[i].journalFailed
      ensures readOnly ==> !ok && history == old(history) + [Refused(i)]
    {
      hide Authorised, After, Shows, DistinctTargets;
      ghost var r := After(history);
      var now;
      now, ok := Publish(i, Exited(items[i], exit), phase, status);
      RunningUpdated(r, After(history), items, i, now, approvedState);
      items := items[i := now];
    }

    /** The item being executed. */
    function Current(): Item
      requires Valid() && active && !collecting && executing.Some?
      reads this
    {
      items[executing.value]
    }

    /** Change the progress of the executing item without a record. */
    method Progress(now: Item)
      requires Valid() && active && !collecting && executing.Some?
      requires now.plan == Current().plan && now.consumed == Current().consumed && now.journalFailed == Current().journalFailed
      modifies this`items
      ensures Valid() && items == old(items)[executing.value := now]
    {
      hide Authorised, After;
      RunningUpdated(After(history), After(history), items, executing.value, now, approvedState);
      items := items[executing.value := now];
    }

    /** `retain_input`: copy the approved input; a failure is recorded. */
    method RetainInput(i: nat) returns (ok: bool)
      requires Valid() && active && !collecting && executing == Some(i)
      modifies this`items, this`history
      ensures Valid() && items == old(items)[i := items[i]]
      ensures ok ==> items[i] == old(items[i]).(retainedState := 2) && history == old(history)
      ensures !ok ==>
                exists state, written ::
                  Written(i, old(items[i]).(retainedState := state, failed := true), items[i], old(history), history,
                          approvedPlan, "retain-input", "failed", written)
    {
      hide Authorised, After, Written, Running, Fresh;
      var before := items[i];
      var guarded: bool := *;
      var copied: bool := *;
      ok := guarded && copied;
      if ok {
        Progress(before.(retainedState := 2));
      } else {
        Progress(before.(retainedState := if guarded then 1 else before.retainedState, failed := true));
        ghost var changed := items[i];
        var written := JournalWrite(i, "retain-input", "failed", None);
        assert Exited(changed, None) == before.(retainedState := changed.retainedState, failed := true);
      }
    }

    /** `wpm_operation_phase_start` */
    method PhaseStart(phase: string) returns (ok: bool)
      requires Valid()
      modifies this`items, this`history
      ensures Valid()
      ensures !active ==> ok == (phase != "") && items == old(items) && history == old(history)
      ensures active && (phase == "" || collecting || executing.None? || old(Current()).failed || |phase| >= PHASE_SIZE) ==>
                !ok && items == old(items) && history == old(history)
      ensures active && !(phase == "" || collecting || executing.None? || old(Current()).failed || |phase| >= PHASE_SIZE) ==>
                && items == old(items)[executing.value := items[executing.value]]
                && Written(executing.value, old(Current()), Current(), old(history), history, approvedPlan, phase, "in-progress", ok)
    {
      hide Authorised, After, Written, Running, Fresh;
      if phase == "" { return false; }
      if !active { return true; }
      if collecting || executing.None? || Current().failed || |phase| >= PHASE_SIZE { return false; }
      ok := JournalWrite(executing.value, phase, "in-progress", None);
    }

    /** `wpm_operation_phase_finish` */
    method PhaseFinish(phase: string) returns (ok: bool)
      requires Valid()
      modifies this`items, this`history
      ensures Valid()
      ensures !active ==> ok == (phase != "") && items == old(items) && history == old(history)
      ensures active && (phase == "" || collecting || executing.None? || old(!CanFinish(Current(), phase))) ==>
                !ok && items == old(items) && history == old(history)
      ensures active && !(phase == "" || collecting || executing.None?) && old(CanFinish(Current(), phase)) ==>
                && items == old(items)[executing.value := items[executing.value]]
                && Written(executing.value, old(Current()).(completed := old(Current()).completed + [phase]), Current(), old(history), history,
                           approvedPlan, phase, "in-progress", ok)
    {
      hide Authorised, After, Written, Running, Fresh;
      if phase == "" { return false; }
      if !active { return true; }
      if collecting || executing.None? || !CanFinish(Current(), phase) { return false; }
      Progress(Current().(completed := Current().completed + [phase]));
      ok := JournalWrite(executing.value, phase, "in-progress", None);
    }

    /** `wpm_operation_external_start`: the uncertainty is recorded first. */
    method ExternalStart(phase: string) returns (ok: bool)
      requires Valid()
      modifies this`items, this`history
      ensures Valid()
      ensures !active ==> ok && items == old(items) && history == old(history)
      ensures active && (collecting || executing.None?) ==> !ok && items == old(items) && history == old(history)
      ensures active && !collecting && executing.Some? ==>
                && items == old(items)[executing.value := items[executing.value]]
                && var it := old(Current()).(external := true, exit := None);
                   if phase == "" || it.failed || |phase| >= PHASE_SIZE then !ok && Current() == it && history == old(history)
                   else Written(executing.value, it, Current(), old(history), history, approvedPlan, phase, "in-progress", ok)
    {
      hide Authorised, After, Written, Running, Fresh;
      if !active { return true; }
      if executing.None? || collecting { return false; }
      Progress(Current().(external := true, exit := None));
      if phase == "" { return false; }
      ok := PhaseStart(phase);
    }

    /** `wpm_operation_script_result` */
    method ScriptResult(exit: ExitCode) returns (ok: bool)
      requires Valid()
      modifies this`items, this`history
      ensures Valid()
      ensures !active ==> ok && items == old(items) && history == old(history)
      ensures active && (collecting || executing.None?) ==> !ok && items == old(items) && history == old(history)
      ensures active && !collecting && executing.Some? ==>
                && items == old(items)[executing.value := items[executing.value]]
                && var it := old(Current()).(exit := Some(exit));
                   if exit != 0 then
                     Written(executing.value, it.(failed := true), Current(), old(history), history, approvedPlan, "script", "failed", ok)
                   else if !CanFinish(it, "script") then !ok && Current() == it && history == old(history)
                   else
                     Written(executing.value, it.(completed := it.completed + ["script"]), Current(), old(history), history,
                             approvedPlan, "script", "in-progress", ok)
    {
      hide Authorised, After, Written, Running;
      if !active { return true; }
      if executing.None? { return false; }
      if exit != 0 {
        Progress(Current().(exit := Some(exit), failed := true));
        ghost var it := Current();
        ok := JournalWrite(executing.value, "script", "failed", Some(exit));
        assert Exited(it, Some(exit)) == it;
      } else {
        Progress(Current().(exit := Some(exit)));
        ok := PhaseFinish("script");
      }
    }

    /** `wpm_operation_archive`: collect a plan, or start its execution. */
    method Archive(action: string, oldVersion: Option<string>, source0: Option<string>, seen: Seen) returns (ok: bool)
      requires Valid()
      modifies this`items, this`history, this`executing
      ensures Valid()
      ensures !active ==> ok && items == old(items) && history == old(history) && executing == old(executing)
      ensures active && old(executing).Some? ==> !ok && items == old(items) && history == old(history) && executing == old(executing)
      ensures active && collecting ==>
                && history == old(history) && executing == None
                && if ok then Collectable(old(items), action, Chosen(selectedSource, source0), oldVersion, seen)
                           && items == old(items) + [Planned(PlanOf(action, Chosen(selectedSource, source0), oldVersion, seen))]
                   else items == old(items)
      ensures active && !collecting && old(executing).None? && executing.None? ==>
                && !ok && items == old(items) && history == old(history)
                && (seen.full.None? || seen.fingerprint.None? || seen.state != Some(approvedState)
                    || forall k :: 0 <= k < |items| ==>
                         items[k].consumed || !Matches(items[k].plan, action, Chosen(selectedSource, source0), oldVersion, seen))
      ensures active && !collecting && old(executing).None? && executing.Some? ==>
                var i := executing.value;
                && i < |old(items)| && items == old(items)[i := items[i]]
                && !old(items)[i].consumed && seen.full.Some? && seen.fingerprint.Some? && seen.state == Some(approvedState)
                && Matches(old(items)[i].plan, action, Chosen(selectedSource, source0), oldVersion, seen)
                && (var plan := old(items)[i].plan;
                    && plan.action == action && Strings.Fold(plan.archive) == Strings.Fold(seen.full.value)
                    && plan.fingerprint == seen.fingerprint.value && Some(plan.file) == seen.file)
                && (forall k :: 0 <= k < |old(items)| && k != i ==>
                      !Matches(old(items)[k].plan, action, Chosen(selectedSource, source0), oldVersion, seen))
                && Quiet(old(history) + [Start(i, approvedState)], history) && Ran(history, i) == []
                && (old(Faithful(history)) && KnownAction(action) ==> Tracked(history, i, items[i]))
                && (ok ==> Retained(items[i]) && LastRecord(history, i).Some?)
                && items[i].plan == old(items)[i].plan
    {
      hide Authorised, After, Written, Fresh, Faithful, Tracked, Running, LastRecord, Ran, Quiet;
      if !active { return true; }
      if executing.Some? { return false; }
      var source := Chosen(selectedSource, source0);
      if seen.full.None? || seen.fingerprint.None? { return false; }
      if collecting {
        ok := Collect(action, source, oldVersion, seen);
        return;
      }
      if seen.state != Some(approvedState) { return false; }
      var n := 0;
      while n < |items| && (items[n].consumed || !Matches(items[n].plan, action, source, oldVersion, seen))
        invariant 0 <= n <= |items|
        invariant forall k :: 0 <= k < n ==> items[k].consumed || !Matches(items[k].plan, action, source, oldVersion, seen)
      {
        n := n + 1;
      }
      if n == |items| { return false; }
      ApprovedIsDistinct(history);
      OneMatches(After(history), items, n, approvedState, action, source, oldVersion, seen);
      ok := Execute(n);
    }

    method Collect(action: string, source: Option<string>, oldVersion: Option<string>, seen: Seen) returns (ok: bool)
      requires Valid() && active && collecting && seen.full.Some? && seen.fingerprint.Some?
      modifies this`items
      ensures Valid()
      ensures if ok then Collectable(old(items), action, source, oldVersion, seen)
                      && items == old(items) + [Planned(PlanOf(action, source, oldVersion, seen))]
              else items == old(items)
    {
      hide Authorised, After, Running, SameTarget;
      var full := seen.full.value;
      for n := 0 to |items|
        invariant forall k :: 0 <= k < n ==> !Targets(items[k].plan, action, full)
      {
        if Targets(items[n].plan, action, full) { return false; }
      }
      if |items| >= PLAN_LIMIT || seen.inspected.None? || seen.recovery.None? || seen.file.None? { return false; }
      var plan := PlanOf(action, source, oldVersion, seen);
      FreshNext(items, plan);
      items := items + [Planned(plan)];
      ok := true;
    }

    /** Start an item: announce it, retain its input. */
    method Execute(i: nat) returns (ok: bool)
      requires Valid() && active && !collecting && executing == None && i < |items| && !items[i].consumed
      modifies this`items, this`history, this`executing
      ensures Valid() && executing == Some(i) && items == old(items)[i := items[i]]
      ensures Quiet(old(history) + [Start(i, approvedState)], history) && Ran(history, i) == []
      ensures old(Faithful(history)) && KnownAction(items[i].plan.action) ==> Tracked(history, i, items[i])
      ensures ok ==> Retained(items[i]) && LastRecord(history, i).Some?
      ensures items[i].plan == old(items)[i].plan
    {
      hide Authorised, After, Written, Fresh, Faithful, Tracked, Running, LastRecord, PhaseName, StatusName, KnownAction, Ran, Quiet;
      NotUsedYet(i);
      NothingRanYet(history, i);
      RanNext(history, Start(i, approvedState), i);
      Announce(i);
      ghost var started := history;
      FirstIsName();
      ghost var known := old(Faithful(history)) && KnownAction(items[i].plan.action);
      ghost var it, h := items[i], history;
      ok := JournalWrite(i, "retain-input", "in-progress", None);
      WrittenTracked(known, i, it, items[i], h, history, approvedPlan, "retain-input", "in-progress", ok);
      WrittenIsQuiet(i, it, items[i], h, history, approvedPlan, "retain-input", "in-progress", ok);
      if ok {
        h := history;
        ok := KeepInput(i, known);
        QuietChain(started, h, history);
      }
      QuietKeeps(started, history, i);
    }

    /** An item that is not consumed has never started. */
    lemma NotUsedYet(i: nat)
      requires Valid() && active && !collecting && i < |items| && !items[i].consumed
      ensures i !in After(history).used
    {
      hide Authorised, After;
    }

    /** The phase in which the input is retained. */
    method KeepInput(i: nat, ghost known: bool) returns (ok: bool)
      requires Valid() && active && !collecting && executing == Some(i)
      requires var it := items[i];
        && it.completed == [] && it.phase == "retain-input" && it.started && !it.failed && !it.journalFailed && !it.external && it.exit == None
      requires known ==> Tracked(history, i, items[i])
      modifies this`items, this`history
      ensures Valid() && items == old(items)[i := items[i]] && Quiet(old(history), history)
      ensures known ==> Tracked(history, i, items[i])
      ensures ok ==> Retained(items[i]) && LastRecord(history, i).Some?
      ensures items[i].plan == old(items)[i].plan
    {
      hide Authorised, After, Written, Fresh, Faithful, Tracked, Running, LastRecord, PhaseName, StatusName, KnownAction, Ran, Quiet;
      FirstIsName();
      ghost var it, h := items[i], history;
      ok := RetainInput(i);
      if !ok {
        ghost var state, written :| Written(i, it.(retainedState := state, failed := true), items[i], h, history, approvedPlan, "retain-input", "failed", written);
        TrackedSame(h, i, it, it.(retainedState := state, failed := true));
        WrittenTracked(known, i, it.(retainedState := state, failed := true), items[i], h, history, approvedPlan, "retain-input", "failed", written);
        WrittenIsQuiet(i, it.(retainedState := state, failed := true), items[i], h, history, approvedPlan, "retain-input", "failed", written);
        return;
      }
      ghost var kept := items[i];
      TrackedSame(h, i, it, kept);
      if known { RetainIsFirst(h, i, kept); }
      ok := PhaseFinish("retain-input");
      FinishTracked(known, i, kept, items[i], h, history, approvedPlan, "retain-input", ok);
      WrittenIsQuiet(i, kept.(completed := kept.completed + ["retain-input"]), items[i], h, history, approvedPlan, "retain-input", "in-progress", ok);
    }

    /** The item becomes the executing one. */
    method Announce(i: nat)
      requires Valid() && active && !collecting && executing == None && i < |items| && !items[i].consumed
      modifies this`items, this`history, this`executing
      ensures Valid() && executing == Some(i)
      ensures items == old(items)[i := Planned(old(items)[i].plan).(consumed := true)]
      ensures history == old(history) + [Start(i, approvedState)]
      ensures old(Faithful(history)) && KnownAction(items[i].plan.action) ==> Tracked(history, i, items[i])
    {
      hide Authorised, After, LastRecord;
      Extended(history, Start(i, approvedState));
      FaithfulNext(history, Start(i, approvedState));
      NoRecordYet(history, i);
      SamePlans(items, items[i := items[i].(consumed := true)]);
      items := items[i := items[i].(consumed := true)];
      executing := Some(i);
      history := history + [Start(i, approvedState)];
    }

    /** `wpm_operation_confirm`: 1 approves the collected plans, 0 cancels, -1
        means that inputs or state changed. */
    method Confirm(state: Option<Digest>, rooted: bool, planHash: (seq<Plan>, Digest) -> string, answer: Option<string>,
                   current: Option<Digest>, checks: Plan -> (Option<Digest>, Option<string>)) returns (r: int)
      requires Valid()
      modifies this`collecting, this`history, this`approvedState, this`approvedPlan
      ensures Valid()
      ensures r == if !active || !old(collecting) || state.None? || !rooted then -1
                   else if readOnly || (items != [] && !assumeYes && !Agreed(answer)) then 0
                   else if current != state || exists i :: 0 <= i < |items| && !Unchanged(items[i].plan, checks) then -1
                   else 1
      ensures r != 1 ==> collecting == old(collecting) && history == old(history)
      ensures r != 1 && !old(collecting) ==> approvedState == old(approvedState) && approvedPlan == old(approvedPlan)
      ensures r == 1 ==> && !collecting && approvedState == state.value && approvedPlan == planHash(PlansOf(items), state.value)
                         && history == old(history) + [Approve(PlansOf(items), state.value, approvedPlan)]
    {
      hide Authorised, After;
      if !active || !collecting || state.None? || !rooted { return -1; }
      approvedState := state.value;
      approvedPlan := planHash(PlansOf(items), state.value);
      if readOnly { return 0; }
      if items != [] && !assumeYes && !Agreed(answer) { return 0; }
      if current != state { return -1; }
      for i := 0 to |items|
        invariant forall k :: 0 <= k < i ==> Unchanged(items[k].plan, checks)
      {
        if !Unchanged(items[i].plan, checks) { return -1; }
      }
      NothingRan(history);
      Extended(history, Approve(PlansOf(items), approvedState, approvedPlan));
      history := history + [Approve(PlansOf(items), approvedState, approvedPlan)];
      collecting := false;
      r := 1;
    }

    /** A package script or handoff process is created. */
    method CreateProcess(phase: string) returns (ok: bool)
      requires Valid() && active && executing.Some? && (phase == "script" ==> After(history).checked)
      modifies this`history
      ensures Valid() && history == old(history) + [Process(executing.value, phase)]
    {
      Extended(history, Process(executing.value, phase));
      history := history + [Process(executing.value, phase)];
      ok := *;
    }

    /** `wpm_operation_before_script`: `file` is the identity found at the archive's path. */
    method BeforeScript(fingerprint: Option<Digest>, file: Option<string>, state: Option<Digest>) returns (ok: bool)
      requires Valid()
      modifies this`history
      ensures Valid()
      ensures ok == (!readOnly && (active ==>
                       && !collecting && executing.Some?
                       && file == Some(Current().plan.file) && fingerprint == Some(Current().plan.fingerprint)
                       && state == Some(approvedState) && !Current().journalFailed))
      ensures if ok && active then
                && fingerprint.Some? && file.Some? && state.Some? && executing.Some?
                && history == old(history) + [Checked(executing.value, fingerprint.value, file.value, state.value)]
              else history == old(history)
    {
      hide Authorised, After;
      if readOnly { return false; }
      if !active { return true; }
      if collecting || executing.None? || file != Some(Current().plan.file) || fingerprint != Some(Current().plan.fingerprint)
         || state != Some(approvedState) || Current().journalFailed {
        return false;
      }
      ghost var e := Checked(executing.value, fingerprint.value, file.value, state.value);
      Extended(history, e);
      history := history + [e];
      ok := true;
    }

    /** `wpm_operation_completed` */
    method Completed(state: Option<Digest>) returns (ok: bool)
      requires Valid()
      modifies this`items, this`history, this`approvedState, this`executing
      ensures Valid()
      ensures !active || collecting ==> ok && items == old(items) && history == old(history) && executing == old(executing)
      ensures active && !collecting && old(executing).None? ==> !ok && items == old(items) && history == old(history) && executing == None
      ensures active && !collecting && old(executing).Some? ==>
                var i := old(executing.value);
                && |items| == |old(items)| && items == old(items)[i := items[i]] && executing == (if ok then None else old(executing))
                && approvedState == (if ok then StateOr(state) else old(approvedState))
                && var g := if ok && history != [] then history[..|history| - 1] else history;
                   && Written(i, old(items)[i], items[i], old(history), g, approvedPlan,
                              FinalPhase(old(items)[i].plan.action), FinalStatus(old(items)[i].plan.action), ok)
                   && (ok ==> history == g + [Complete(i, StateOr(state))])
    {
      hide Authorised, After, Written, Fresh;
      ok := true;
      if active && !collecting {
        if executing.None? { return false; }
        var i := executing.value;
        var action := items[i].plan.action;
        ok := JournalWrite(i, FinalPhase(action), FinalStatus(action), None);
        ghost var g := history;
        assert Exited(old(items)[i], None) == old(items)[i];
        assert Written(i, old(items)[i], items[i], old(history), g, approvedPlan, FinalPhase(action), FinalStatus(action), ok);
        if !ok { return; }
        Extended(g, Complete(i, StateOr(state)));
        history := history + [Complete(i, StateOr(state))];
        assert history[..|history| - 1] == g;
        approvedState := StateOr(state);
        executing := None;
      }
    }

    /** `wpm_operation_close` */
    method CloseOperation()
      requires Valid()
      modifies this
      ensures Valid() && !active && items == [] && readOnly == old(readOnly)
      ensures if old(executing).Some? && old(items[executing.value]).started && !old(items[executing.value]).journalFailed then
                var it := old(items[executing.value]);
                exists now, ok :: Written(old(executing.value), it, now, old(history), history, old(approvedPlan), it.phase, "failed", ok)
              else history == old(history)
    {
      hide Authorised, After, Written, Fresh, Running;
      if executing.Some? && items[executing.value].started && !items[executing.value].journalFailed {
        var i := executing.value;
        ghost var it := items[i];
        var ok := JournalWrite(i, items[i].phase, "failed", None);
        assert Exited(it, None) == it;
      }
      items, active, collecting, executing := [], false, false, None;
    }
  }

  function StateOr(state: Option<Digest>): Digest {
    if state.Some? then state.value else ZERO
  }

  function FinalPhase(action: string): string {
    if action == "self-upgrade" then "handoff" else "completed"
  }

  function FinalStatus(action: string): string {
    if action == "self-upgrade" then "pending" else "completed"
  }

  /** The operator's answer, without its line end. */
  predicate Agreed(answer: Option<string>) {
    answer.Some? && (Strings.Fold(answer.value) == "y" || Strings.Fold(answer.value) == "yes")
  }

  /** The planned archive is still the same file with the same content. */
  predicate Unchanged(p: Plan, checks: Plan -> (Option<Digest>, Option<string>)) {
    checks(p) == (Some(p.fingerprint), Some(p.file))
  }

  lemma {:induction false} NothingRan(h: seq<Event>)
    requires Authorised(h) && !After(h).approved
    ensures After(h).used == {} && After(h).broken == {} && After(h).current == None && !After(h).checked
  {
    if h != [] {
      NothingRan(h[..|h| - 1]);
    }
  }

  /** The source locator bound to a repository selection, or the given one. */
  function Chosen(selected: string, source: Option<string>): Option<string> {
    if selected != "" then Some(selected) else source
  }

  function SourceOf(source: Option<string>, full: string): string {
    if source.Some? && source.value != "" then source.value else full
  }

  function VersionOr(oldVersion: Option<string>): string {
    if oldVersion.Some? then oldVersion.value else "none"
  }

  predicate Targets(p: Plan, action: string, full: string) {
    Strings.Fold(p.archive) == Strings.Fold(full) && p.action == action
  }

  function PlanOf(action: string, source: Option<string>, oldVersion: Option<string>, seen: Seen): Plan
    requires seen.full.Some? && seen.fingerprint.Some? && seen.inspected.Some? && seen.recovery.Some? && seen.file.Some?
  {
    Plan(action, seen.full.value, SourceOf(source, seen.full.value), VersionOr(oldVersion), seen.inspected.value.0,
         seen.inspected.value.1, seen.fingerprint.value, seen.file.value, seen.recovery.value.0, seen.recovery.value.1)
  }

  /** When a plan joins the collection. */
  predicate Collectable(items: seq<Item>, action: string, source: Option<string>, oldVersion: Option<string>, seen: Seen) {
    && seen.full.Some? && seen.fingerprint.Some? && seen.inspected.Some? && seen.recovery.Some? && seen.file.Some?
    && |items| < PLAN_LIMIT
    && forall k :: 0 <= k < |items| ==> !Targets(items[k].plan, action, seen.full.value)
  }

  /** What a call must find to run a planned item. */
  predicate Matches(p: Plan, action: string, source: Option<string>, oldVersion: Option<string>, seen: Seen)
    requires seen.full.Some? && seen.fingerprint.Some?
  {
    && p.action == action && Strings.Fold(p.archive) == Strings.Fold(seen.full.value)
    && p.source == SourceOf(source, seen.full.value) && p.oldVersion == VersionOr(oldVersion)
    && p.fingerprint == seen.fingerprint.value && seen.file == Some(p.file)
  }

  /** At most one approved plan matches. */
  lemma OneMatches(r: Run, items: seq<Item>, n: nat, state: Digest, action: string, source: Option<string>, oldVersion: Option<string>, seen: Seen)
    requires Running(r, items, None, state) && DistinctTargets(r.plans) && n < |items|
    requires seen.full.Some? && seen.fingerprint.Some? && Matches(items[n].plan, action, source, oldVersion, seen)
    ensures forall k :: 0 <= k < |items| && k != n ==> !Matches(items[k].plan, action, source, oldVersion, seen)
  {
    hide Strings.Fold;
    forall k | 0 <= k < |items| && k != n ensures !Matches(items[k].plan, action, source, oldVersion, seen) {
      var i, j := if k < n then k else n, if k < n then n else k;
      assert !SameTarget(r.plans[i], r.plans[j]);
    }
  }

  /** What was collected matches the same call when the same file is found again,
      and only then: neither another content nor another file will do. */
  lemma CollectedMatches(action: string, source: Option<string>, oldVersion: Option<string>, seen: Seen, now: Seen)
    requires seen.full.Some? && seen.fingerprint.Some? && seen.inspected.Some? && seen.recovery.Some? && seen.file.Some?
    requires now.full == seen.full && now.fingerprint.Some?
    ensures Matches(PlanOf(action, source, oldVersion, seen), action, source, oldVersion, now) <==>
            now.fingerprint == seen.fingerprint && now.file == seen.file
  {
    hide Strings.Fold;
    var p := PlanOf(action, source, oldVersion, seen);
    assert p.archive == now.full.value && p.source == SourceOf(source, now.full.value);
  }

  /** The item is announced and its input retained. */
  predicate Retained(it: Item) {
    && it.completed == ["retain-input"] && it.phase == "retain-input" && it.retainedState == 2 && it.started
    && !it.failed && !it.journalFailed && !it.external && it.exit == None
  }

  lemma FreshNext(items: seq<Item>, plan: Plan)
    requires Fresh(items) && |items| < PLAN_LIMIT
    requires forall k :: 0 <= k < |items| ==> !Targets(items[k].plan, plan.action, plan.archive)
    ensures Fresh(items + [Planned(plan)])
  {
    var now := items + [Planned(plan)];
    forall i, j | 0 <= i < j < |now| ensures !SameTarget(PlansOf(now)[i], PlansOf(now)[j]) {
      if j < |items| { assert PlansOf(items)[i] == items[i].plan && PlansOf(items)[j] == items[j].plan; }
    }
  }

  predicate CanFinish(it: Item, phase: string) {
    !it.failed && it.phase == phase && |it.completed| != PHASE_LIMIT && |phase| < PHASE_SIZE
  }

  /** The item a record may be written for. */
  ghost predicate Writable(r: Run, i: nat, it: Item) {
    r.current == Some(i) && i < |r.plans| && it.plan == r.plans[i] && (it.journalFailed <==> i in r.broken)
  }

  lemma RunningUpdated(r: Run, s: Run, items: seq<Item>, i: nat, now: Item, state: Digest)
    requires Running(r, items, Some(i), state)
    requires s == r || s == r.(broken := r.broken + {i})
    requires now.plan == items[i].plan && now.consumed == items[i].consumed && (now.journalFailed <==> i in s.broken)
    ensures Running(s, items[i := now], Some(i), state)
  {
    SamePlans(items, items[i := now]);
  }

  function Exited(it: Item, exit: Option<ExitCode>): Item {
    if exit.Some? then it.(exit := exit) else it
  }

  lemma ShownAsIs(it: Item, planDigest: string, updated: string, phase: string, status: string)
    ensures Shows(Record(it.plan, planDigest, it.created, updated, status, phase, it.external, it.exit, it.retainedState, it.completed),
                  it, planDigest, phase, status)
  {}

  lemma SamePlans(a: seq<Item>, b: seq<Item>)
    requires |a| == |b| && forall i :: 0 <= i < |a| ==> a[i].plan == b[i].plan
    ensures PlansOf(a) == PlansOf(b)
  {}

  /** Items while plans are collected: untouched, with distinct targets. */
  ghost predicate Fresh(items: seq<Item>) {
    && |items| <= PLAN_LIMIT
    && (forall i :: 0 <= i < |items| ==> items[i] == Planned(items[i].plan))
    && DistinctTargets(PlansOf(items))
  }

  /** Items during execution. */
  ghost predicate Running(r: Run, items: seq<Item>, executing: Option<nat>, state: Digest) {
    && r.plans == PlansOf(items) && r.current == executing && r.state == state
    && (executing.Some? ==> executing.value < |items| && items[executing.value].consumed)
    && forall i :: 0 <= i < |items| ==>
         && (items[i].consumed <==> i in r.used) && (items[i].journalFailed <==> i in r.broken)
         && (items[i].consumed || items[i] == Planned(items[i].plan))
  }

  // ----- what the records of an item tell -----

  /** The fixed phases of an action. */
  function Phases(action: string): seq<string> {
    if action == "install" || action == "upgrade" then
      ["retain-input", "stage", "extract", "validate", "script", "retain-archive", "audit", "cleanup"]
    else if action == "remove" then ["retain-input", "stage", "extract", "validate", "script", "remove-record", "cleanup"]
    else if action == "self-upgrade" then ["retain-input"]
    else []
  }

  predicate KnownAction(action: string) {
    action == "install" || action == "upgrade" || action == "remove" || action == "self-upgrade"
  }

  predicate Final(status: string) {
    status == "completed" || status == "pending"
  }

  predicate PhaseName(phase: string) {
    || phase == "retain-input" || phase == "stage" || phase == "extract" || phase == "validate" || phase == "script"
    || phase == "retain-archive" || phase == "audit" || phase == "remove-record" || phase == "cleanup"
    || phase == "handoff" || phase == "completed"
  }

  predicate StatusName(status: string) {
    status in ["in-progress", "failed", "pending", "completed"]
  }

  /** A record uses the known words and claims no more than was done. */
  predicate Honest(r: Record) {
    && KnownAction(r.plan.action) && PhaseName(r.phase) && StatusName(r.status)
    && r.completed <= Phases(r.plan.action)
    && (Final(r.status) ==> r.completed == Phases(r.plan.action))
    && (r.status == "pending" ==> r.plan.action == "self-upgrade" && r.external)
    && (r.status == "completed" ==> r.plan.action != "self-upgrade")
  }

  function LastRecord(h: seq<Event>, i: nat): Option<Record> {
    if h == [] then None
    else if h[|h| - 1].Commit? && h[|h| - 1].i == i then Some(h[|h| - 1].record)
    else LastRecord(h[..|h| - 1], i)
  }

  /** A later record of an item takes nothing back. */
  predicate Follows(last: Option<Record>, completed: seq<string>, external: bool) {
    last.Some? ==> last.value.completed <= completed && (last.value.external ==> external) && !Final(last.value.status)
  }

  /** The last event committed that an external process may change state. */
  predicate Announced(h: seq<Event>, i: nat, phase: string) {
    && h != [] && var e := h[|h| - 1];
       e.Commit? && e.i == i && e.record.external && e.record.exit == None && e.record.phase == phase && e.record.status == "in-progress"
  }

  predicate Tells(h: seq<Event>, e: Event) {
    if e.Commit? then Honest(e.record) && Follows(LastRecord(h, e.i), e.record.completed, e.record.external)
    else if e.Process? then Announced(h, e.i, e.phase)
    else e.Complete? ==>
      && LastRecord(h, e.i).Some? && Final(LastRecord(h, e.i).value.status)
      && (LastRecord(h, e.i).value.external <==> Ran(h, e.i) != [])
  }

  predicate Faithful(h: seq<Event>) {
    h == [] || (Faithful(h[..|h| - 1]) && Tells(h[..|h| - 1], h[|h| - 1]))
  }

  /** An item in execution against its records. */
  predicate Tracked(h: seq<Event>, i: nat, it: Item) {
    && Faithful(h) && KnownAction(it.plan.action) && it.completed <= Phases(it.plan.action)
    && (it.started ==> PhaseName(it.phase))
    && (!it.journalFailed ==> Follows(LastRecord(h, i), it.completed, it.external))
  }

  lemma FaithfulNext(h: seq<Event>, e: Event)
    ensures Faithful(h + [e]) <==> Faithful(h) && Tells(h, e)
    ensures forall i :: LastRecord(h + [e], i) == if e.Commit? && e.i == i then Some(e.record) else LastRecord(h, i)
  {
    assert (h + [e])[..|h|] == h;
  }

  /** Writing a record of a tracked item keeps the records faithful. */
  lemma WrittenFaithful(i: nat, it: Item, now: Item, h: seq<Event>, g: seq<Event>, planDigest: string, phase: string, status: string, ok: bool)
    requires Tracked(h, i, it) && Written(i, it, now, h, g, planDigest, phase, status, ok)
    requires PhaseName(phase) && StatusName(status)
    requires Final(status) ==> && it.completed == Phases(it.plan.action)
                               && (if status == "pending" then it.plan.action == "self-upgrade" && it.external else it.plan.action != "self-upgrade")
    ensures Faithful(g) && now.completed == it.completed && now.plan == it.plan && now.external == it.external
    ensures !Final(status) ==> Tracked(g, i, now)
    ensures ok ==> LastRecord(g, i).Some? && LastRecord(g, i).value.status == status && LastRecord(g, i).value.external == it.external
    ensures ok ==> LastRecord(g, i).value.plan == it.plan
    ensures ok ==> Announced(g, i, phase) == (it.external && it.exit == None && status == "in-progress")
  {
    hide Faithful, LastRecord, Phases, PhaseName, StatusName;
    if g == h + [Refused(i)] {
      FaithfulNext(h, Refused(i));
    } else {
      var e := g[|h|];
      FaithfulNext(h, e);
      if ok {
        assert g == h + [e];
      } else {
        assert g == (h + [e]) + [Refused(i)];
        FaithfulNext(h + [e], Refused(i));
      }
    }
  }

  lemma WrittenTracked(known: bool, i: nat, it: Item, now: Item, h: seq<Event>, g: seq<Event>, planDigest: string, phase: string, status: string, ok: bool)
    requires Written(i, it, now, h, g, planDigest, phase, status, ok) && !Final(status)
    requires known ==> Tracked(h, i, it) && PhaseName(phase) && StatusName(status)
    ensures known ==> Tracked(g, i, now)
    ensures h <= g && now.plan == it.plan && now.completed == it.completed && now.failed == it.failed && now.external == it.external
    ensures now.retainedState == it.retainedState && now.consumed == it.consumed && now.exit == it.exit
    ensures ok ==> LastRecord(g, i).Some? && now.phase == phase && now.started && !now.journalFailed
    ensures ok ==> Announced(g, i, phase) == (it.external && it.exit == None && status == "in-progress")
  {
    hide Faithful, LastRecord, Tracked, PhaseName, StatusName;
    if known { WrittenFaithful(i, it, now, h, g, planDigest, phase, status, ok); }
    WrittenLast(i, it, now, h, g, planDigest, phase, status, ok);
  }

  lemma WrittenLast(i: nat, it: Item, now: Item, h: seq<Event>, g: seq<Event>, planDigest: string, phase: string, status: string, ok: bool)
    requires Written(i, it, now, h, g, planDigest, phase, status, ok)
    ensures ok ==> LastRecord(g, i).Some? && Announced(g, i, phase) == (it.external && it.exit == None && status == "in-progress")
  {}

  lemma FirstIsName()
    ensures PhaseName("retain-input") && StatusName("in-progress") && StatusName("failed")
  {}

  lemma RetainIsFirst(h: seq<Event>, i: nat, it: Item)
    requires Tracked(h, i, it)
    ensures ["retain-input"] <= Phases(it.plan.action)
  {
    hide Faithful, LastRecord, PhaseName;
  }

  lemma TrackedSame(h: seq<Event>, i: nat, it: Item, now: Item)
    requires now.plan == it.plan && now.completed == it.completed && (it.external ==> now.external) && now.journalFailed == it.journalFailed
    requires now.started == it.started && now.phase == it.phase
    ensures Tracked(h, i, it) ==> Tracked(h, i, now)
  {
    hide Faithful, LastRecord, Phases;
  }

  /** Finishing the next phase of an action. */
  lemma FinishTracked(known: bool, i: nat, it: Item, now: Item, h: seq<Event>, g: seq<Event>, planDigest: string, phase: string, ok: bool)
    requires var it1 := it.(completed := it.completed + [phase]); Written(i, it1, now, h, g, planDigest, phase, "in-progress", ok)
    requires known ==> Tracked(h, i, it) && it.completed + [phase] <= Phases(it.plan.action) && PhaseName(phase)
    ensures known ==> Tracked(g, i, now)
    ensures h <= g && now.plan == it.plan && now.completed == it.completed + [phase] && now.failed == it.failed && now.external == it.external
    ensures now.retainedState == it.retainedState && now.consumed == it.consumed && now.exit == it.exit
    ensures ok ==> LastRecord(g, i).Some? && now.phase == phase && now.started && !now.journalFailed
  {
    var it1 := it.(completed := it.completed + [phase]);
    if known { FurtherTracked(h, i, it, phase); }
    WrittenTracked(known, i, it1, now, h, g, planDigest, phase, "in-progress", ok);
  }

  lemma FurtherTracked(h: seq<Event>, i: nat, it: Item, phase: string)
    requires Tracked(h, i, it) && it.completed + [phase] <= Phases(it.plan.action)
    ensures Tracked(h, i, it.(completed := it.completed + [phase]))
  {
    hide Faithful, LastRecord, Phases;
  }

  /** No record precedes the start of an item. */
  lemma {:induction false} NoRecordYet(h: seq<Event>, i: nat)
    requires Authorised(h) && i !in After(h).used
    ensures LastRecord(h, i) == None
  {
    if h != [] {
      CurrentIsUsed(h[..|h| - 1]);
      NoRecordYet(h[..|h| - 1], i);
    }
  }

  lemma {:induction false} CurrentIsUsed(h: seq<Event>)
    requires Authorised(h)
    ensures After(h).current.Some? ==> After(h).current.value in After(h).used
  {
    if h != [] { CurrentIsUsed(h[..|h| - 1]); }
  }
}
