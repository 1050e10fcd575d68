/** The plan protocol and the record reader together: whatever an invocation has
    committed is read back, and what the reader reports is what happened.  */
module Evidence {
  import opened JsonGrammar
  import opened JsonFields
  import opened JsonText
  import opened Decimal
  import opened Semver
  import opened Catalog
  import opened Records
  import opened Operations
  import opened Drivers
  import opened Journal
  import opened RoundTrip
  import Publish
  import Redaction
  import Strings
  import Timestamps

  // ----- texts that redaction keeps -----

  /** Redaction changes nothing, and the text is UTF-8. */
  ghost predicate Kept(t: string) {
    Safe(t) == t && IsUtf8(t)
  }

  predicate OrdinaryByte(c: char) {
    ' ' <= c <= '~' && c != '='
  }

  predicate Ordinary(t: string) {
    (forall i :: 0 <= i < |t| ==> OrdinaryByte(t[i])) && (':' !in t || '/' !in t)
  }

  lemma OrdinaryIsKept(t: string)
    requires Ordinary(t)
    ensures Kept(t)
  {
    AsciiIsUtf8(t);
    Redaction.PlainIsKept(t);
  }

  predicate LowHexByte(c: char) {
    '0' <= c <= '9' || 'a' <= c <= 'f'
  }

  lemma HexIsOrdinary(t: string)
    requires forall i :: 0 <= i < |t| ==> LowHexByte(t[i])
    ensures Ordinary(t) && Ordinary(t + "/input.zip")
  {
    var s := t + "/input.zip";
    assert forall i :: 0 <= i < |"/input.zip"| ==> OrdinaryByte("/input.zip"[i]) && "/input.zip"[i] != ':';
    forall i | 0 <= i < |s| ensures OrdinaryByte(s[i]) && s[i] != ':' {
      if i >= |t| { assert s[i] == "/input.zip"[i - |t|]; }
    }
  }

  lemma StampIsOrdinary(t: string)
    requires Timestamps.IsStamp(t)
    ensures Ordinary(t)
  {
    Timestamps.StampIsShaped(t);
    hide Timestamps.IsStamp, Timestamps.Shaped;
    Timestamps.ShapedIsFitting(t);
    forall i | 0 <= i < 24 ensures OrdinaryByte(t[i]) && t[i] != '/' {
      assert Timestamps.Fitting(i, t[i]);
    }
  }

  // Versions.

  predicate VersionByte(c: char) {
    IdByte(c) || c == '.' || c == '+'
  }

  predicate VersionText(s: string) {
    forall c :: c in s ==> VersionByte(c)
  }

  lemma {:induction false} IdBytes(s: string)
    requires AllIdBytes(s)
    ensures VersionText(s)
  {
    if s != "" {
      IdBytes(s[1..]);
      assert s == [s[0]] + s[1..];
    }
  }

  lemma {:induction false} IdentifiersText(s: string, pre: bool)
    requires ValidIdentifiers(s, pre)
    ensures VersionText(s)
    decreases |s|
  {
    if s != "" {
      var n := Upto(s);
      IdBytes(s[..n]);
      IdentifiersText(Behind(s), pre);
      assert s == s[..n] + s[n..];
      if n < |s| {
        UptoDot(s);
        assert s[n..] == [s[n]] + s[n..][1..];
      }
    }
  }

  lemma {:induction false} UptoDot(s: string)
    ensures Upto(s) < |s| ==> s[Upto(s)] == '.'
  {
    if s != "" && s[0] != '.' { UptoDot(s[1..]); }
  }

  lemma NumberText(s: string)
    requires NumberPart(s).Ok? && VersionText(NumberPart(s).rest)
    ensures VersionText(s)
  {
    var n := DigitRun(s);
    DigitRunFacts(s);
    DigitsAre(s[..n]);
    assert s == s[..n] + s[n..];
    forall c | c in s ensures VersionByte(c) {
      assert c in s[..n] || c in s[n..];
    }
  }

  lemma DottedText(s: string)
    requires DottedPart(s).Ok? && VersionText(DottedPart(s).rest)
    ensures VersionText(s)
  {
    hide NumberPart;
    NumberText(s[1..]);
    assert s == [s[0]] + s[1..];
  }

  lemma PreText(s: string)
    requires PrePart(s).Ok? && VersionText(PrePart(s).rest)
    ensures VersionText(s)
  {
    hide ValidIdentifiers;
    if Head(s) == '-' {
      var t := s[1..];
      var n := UptoPlus(t);
      IdentifiersText(t[..n], true);
      assert s == [s[0]] + (t[..n] + t[n..]);
    }
  }

  lemma BuildText(s: string)
    requires BuildPart(s)
    ensures VersionText(s)
  {
    hide ValidIdentifiers;
    if s != "" {
      IdentifiersText(s[1..], false);
      assert s == [s[0]] + s[1..];
    }
  }

  lemma VersionIsOrdinary(s: string)
    requires IsVersion(s)
    ensures Ordinary(s)
  {
    hide NumberPart, DottedPart, PrePart, BuildPart;
    var t := NumberPart(s).rest;
    var u := DottedPart(t).rest;
    var v := DottedPart(u).rest;
    var w := PrePart(v).rest;
    BuildText(w);
    PreText(v);
    DottedText(u);
    DottedText(t);
    NumberText(s);
    hide ParseVersion;
    forall i | 0 <= i < |s| ensures OrdinaryByte(s[i]) && s[i] != ':' {
      assert VersionByte(s[i]);
    }
  }

  lemma ArchIsOrdinary(s: string)
    requires KnownArch(s)
    ensures Ordinary(s)
  {
    forall i | 0 <= i < |s| ensures OrdinaryByte(s[i]) && s[i] != ':' {
      assert Strings.Fold(s)[i] == Strings.Lower(s[i]);
      if Strings.Fold(s) == Strings.Fold("any") { assert Strings.Fold("any")[i] == Strings.Lower("any"[i]); }
      else if Strings.Fold(s) == Strings.Fold("x86") { assert Strings.Fold("x86")[i] == Strings.Lower("x86"[i]); }
      else if Strings.Fold(s) == Strings.Fold("x64") { assert Strings.Fold("x64")[i] == Strings.Lower("x64"[i]); }
      else { assert Strings.Fold("arm64")[i] == Strings.Lower("arm64"[i]); }
    }
  }

  lemma ActionIsOrdinary(action: string)
    requires KnownAction(action)
    ensures Ordinary(action)
  {}

  lemma StatusIsOrdinary(status: string)
    requires StatusName(status)
    ensures Ordinary(status)
  {}

  lemma StateIsOrdinary(state: nat)
    ensures Ordinary(StateName(state))
  {}

  lemma PhaseIsOrdinary(phase: string)
    requires PhaseName(phase)
    ensures Ordinary(phase) && Publish.FieldFits(phase, 32)
  {
    if phase == "retain-input" || phase == "stage" || phase == "extract" || phase == "validate" || phase == "script" {
      EarlyPhase(phase);
    } else {
      LatePhase(phase);
    }
  }

  lemma EarlyPhase(phase: string)
    requires phase == "retain-input" || phase == "stage" || phase == "extract" || phase == "validate" || phase == "script"
    ensures Ordinary(phase) && Publish.FieldFits(phase, 32)
  {}

  lemma LatePhase(phase: string)
    requires || phase == "retain-archive" || phase == "audit" || phase == "remove-record" || phase == "cleanup"
             || phase == "handoff" || phase == "completed"
    ensures Ordinary(phase) && Publish.FieldFits(phase, 32)
  {}

  // ----- records that are read back -----

  /** A plan as collection makes it: an identity the package reader accepts, texts
      within their buffers, and names and paths that redaction keeps. */
  ghost predicate PlanReady(p: Plan) {
    && IsHex(p.recoveryId, 32) && PackageReady(p) && InputReady(p)
    && Publish.FieldFits(p.source, PATH) && Publish.FieldFits(p.retained, PATH)
    && (p.signer == "" || p.signer == "unsigned" || IsHex(p.signer, 64))
    && Kept(p.identity.name) && Kept(p.source) && Kept(p.archive) && Kept(p.retained)
  }

  /** The clock gave real times and did not go back. */
  ghost predicate InTime(r: Record) {
    Timestamps.IsStamp(r.created) && Timestamps.IsStamp(r.updated) && Strings.Compare(r.created, r.updated) <= 0
  }

  ghost predicate Ready(r: Record) {
    Honest(r) && PlanReady(r.plan) && InTime(r) && IsHex(r.planDigest, 64)
  }

  lemma RootTexts(r: Record)
    requires Ready(r)
    ensures Kept(r.plan.recoveryId) && Kept(r.plan.action) && Kept(r.created) && Kept(r.updated) && Kept(r.planDigest)
    ensures Kept(r.status) && Kept(r.phase) && Kept(StateName(r.retainedState))
  {
    hide Ordinary, Phases, PackageReady, InputReady, StateName, KnownAction, StatusName, PhaseName, Timestamps.IsStamp, Kept, Publish.FieldFits;
    HexIsOrdinary(r.plan.recoveryId);
    ActionIsOrdinary(r.plan.action);
    StampIsOrdinary(r.created);
    StampIsOrdinary(r.updated);
    HexIsOrdinary(r.planDigest);
    StatusIsOrdinary(r.status);
    PhaseIsOrdinary(r.phase);
    StateIsOrdinary(r.retainedState);
    OrdinaryIsKept(r.plan.recoveryId);
    OrdinaryIsKept(r.plan.action);
    OrdinaryIsKept(r.created);
    OrdinaryIsKept(r.updated);
    OrdinaryIsKept(r.planDigest);
    OrdinaryIsKept(r.status);
    OrdinaryIsKept(r.phase);
    OrdinaryIsKept(StateName(r.retainedState));
  }

  lemma SignerIsOrdinary(t: string)
    requires t == "" || t == "unsigned" || IsHex(t, 64)
    ensures Ordinary(t)
  {
    if IsHex(t, 64) { HexIsOrdinary(t); }
  }

  lemma OldVersionIsOrdinary(t: string)
    requires t == "none" || IsVersion(t)
    ensures Ordinary(t)
  {
    if t != "none" { VersionIsOrdinary(t); }
  }

  lemma PlanTexts(p: Plan)
    requires PlanReady(p)
    ensures Kept(p.identity.arch) && Kept(HexText(p.fingerprint)) && Kept(Relative(p)) && Kept(p.identity.version)
    ensures Kept(p.oldVersion) && Kept(p.signer)
  {
    hide Ordinary, HexText, IsVersion, KnownArch, Kept, Publish.FieldFits;
    ArchIsOrdinary(p.identity.arch);
    HexIs(p.fingerprint);
    HexIsOrdinary(HexText(p.fingerprint));
    HexIsOrdinary(p.recoveryId);
    VersionIsOrdinary(p.identity.version);
    OldVersionIsOrdinary(p.oldVersion);
    SignerIsOrdinary(p.signer);
    OrdinaryIsKept(p.identity.arch);
    OrdinaryIsKept(HexText(p.fingerprint));
    OrdinaryIsKept(Relative(p));
    OrdinaryIsKept(p.identity.version);
    OrdinaryIsKept(p.oldVersion);
    OrdinaryIsKept(p.signer);
  }

  lemma TextsAreKept(r: Record)
    requires Ready(r)
    ensures forall i :: 0 <= i < |Texts(r)| ==> Kept(Texts(r)[i])
  {
    ReadyParts(r);
    RootTexts(r);
    PlanTexts(r.plan);
    hide *;
    Collected(r);
  }

  lemma ReadyParts(r: Record)
    requires Ready(r)
    ensures PlanReady(r.plan) && Honest(r)
    ensures Kept(r.plan.identity.name) && Kept(r.plan.source) && Kept(r.plan.archive) && Kept(r.plan.retained)
  {
    hide Honest, InTime, IsHex, PackageReady, InputReady, Publish.FieldFits, Kept;
  }

  lemma Collected(r: Record)
    requires Kept(r.plan.recoveryId) && Kept(r.plan.action) && Kept(r.created) && Kept(r.updated) && Kept(r.planDigest)
    requires Kept(r.status) && Kept(r.phase) && Kept(StateName(r.retainedState))
    requires Kept(r.plan.identity.arch) && Kept(HexText(r.plan.fingerprint)) && Kept(Relative(r.plan)) && Kept(r.plan.identity.version)
    requires Kept(r.plan.oldVersion) && Kept(r.plan.signer)
    requires Kept(r.plan.identity.name) && Kept(r.plan.source) && Kept(r.plan.archive) && Kept(r.plan.retained)
    ensures forall i :: 0 <= i < |Texts(r)| ==> Kept(Texts(r)[i])
  {
    hide Kept, HexText, Relative, StateName;
  }

  lemma PhasesAreKept(r: Record)
    requires Honest(r)
    ensures forall k :: 0 <= k < |r.completed| ==> Kept(r.completed[k])
  {
    hide PhaseName, Phases, Kept, StatusName, Ordinary, Publish.FieldFits;
    forall k | 0 <= k < |r.completed| ensures Kept(r.completed[k]) {
      PhasesAreNames(r.plan.action, k);
      PhaseIsOrdinary(r.completed[k]);
      OrdinaryIsKept(r.completed[k]);
    }
  }

  lemma KeptIsPrintable(r: Record)
    requires forall i :: 0 <= i < |Texts(r)| ==> Kept(Texts(r)[i])
    requires forall k :: 0 <= k < |r.completed| ==> Kept(r.completed[k])
    ensures Untouched(r) && AllUtf8(r)
  {
    hide Texts, Safe, IsUtf8;
  }

  lemma ReadyIsPrintable(r: Record)
    requires Ready(r)
    ensures Untouched(r) && AllUtf8(r)
  {
    ReadyParts(r);
    hide *;
    TextsAreKept(r);
    PhasesAreKept(r);
    KeptIsPrintable(r);
  }

  lemma ReadyIsRecordable(r: Record)
    requires Ready(r)
    ensures Recordable(r)
  {
    hide Kept, Phases, PackageReady, InputReady, PhaseName, KnownAction, Timestamps.IsStamp, Publish.FieldFits, IsHex, Strings.Compare;
    PhaseIsOrdinary(r.phase);
  }

  /** What `record_parse` makes of a text. */
  ghost function ReadText(text: string, id: string): Option<RecoveryRecord> {
    if '\0' !in text && Utf8(text) && Parse(text).Ok? && Parse(text).value.Wf() then RecordOf(Parse(text).value, id) else None
  }

  /** What the reader makes of the record's file. */
  ghost function ReadBack(r: Record): Option<RecoveryRecord> {
    ReadText(JournalTree(r).Text(), r.plan.recoveryId)
  }

  lemma ReadyIsReadBack(r: Record)
    requires Ready(r)
    ensures ReadBack(r) == Some(Expected(r))
  {
    hide Ready, Parse, Utf8, RecordOf, JournalTree, Expected;
    ReadyIsRecordable(r);
    ReadyIsPrintable(r);
    RecordRoundTrip(r);
  }

  // ----- whole invocations -----

  /** What is asked of the approved plans, the digest and the clock. */
  ghost predicate Conditions(h: seq<Event>) {
    && (forall p :: p in After(h).plans ==> PlanReady(p))
    && (After(h).approved ==> IsHex(After(h).digest, 64))
    && (forall q :: 0 <= q < |h| && h[q].Commit? ==> InTime(h[q].record))
  }

  lemma CommitIsReady(h: seq<Event>, q: nat)
    requires Authorised(h) && Faithful(h) && Conditions(h) && q < |h| && h[q].Commit?
    ensures Ready(h[q].record)
  {
    hide Authorised, Faithful, After, PlanReady, InTime, IsHex, Honest;
    FaithfulPrefix(h, q);
    var p := CommitsAreCurrent(h, q);
    Prefix(h, q);
    CurrentIsApproved(h, q);
    Advances(h, q, |h|);
    assert h[..|h|] == h;
  }

  /** Every record an invocation commits is read back as what was recorded. */
  lemma RecordsAreReadBack(h: seq<Event>, q: nat)
    requires Authorised(h) && Faithful(h) && Conditions(h) && q < |h| && h[q].Commit?
    ensures ReadBack(h[q].record) == Some(Expected(h[q].record))
  {
    hide Authorised, Faithful, Conditions, Ready, ReadBack, Expected;
    CommitIsReady(h, q);
    ReadyIsReadBack(h[q].record);
  }

  /** The file left for an item reads as its last record. */
  lemma LastRecordIsReadBack(h: seq<Event>, i: nat)
    requires Authorised(h) && Faithful(h) && Conditions(h) && LastRecord(h, i).Some?
    ensures ReadBack(LastRecord(h, i).value) == Some(Expected(LastRecord(h, i).value))
  {
    hide Authorised, Faithful, Conditions, ReadBack, Expected;
    var q := LastCommit(h, i);
    RecordsAreReadBack(h, q);
  }

  /** Whenever a process was created for an item, the reader finds in its file that
      external state may have changed. */
  lemma UncertaintyIsReadBack(h: seq<Event>, q: nat)
    requires Authorised(h) && Faithful(h) && Conditions(h) && q < |h| && h[q].Process?
    ensures LastRecord(h, h[q].i).Some?
    ensures var e := ReadBack(LastRecord(h, h[q].i).value); e.Some? && e.value.root.external
  {
    hide Authorised, Faithful, Conditions, ReadBack;
    UncertaintyStays(h, q);
    LastRecordIsReadBack(h, h[q].i);
  }

  /** The reader finds "completed" only when every phase of the action was
      recorded. */
  lemma CompletionIsReadBack(h: seq<Event>, i: nat)
    requires Authorised(h) && Faithful(h) && Conditions(h) && LastRecord(h, i).Some?
    ensures var r := LastRecord(h, i).value;
            var e := ReadBack(r);
            e.Some? && (e.value.root.status == "completed" ==> r.completed == Phases(r.plan.action))
  {
    hide Authorised, Faithful, Conditions, ReadBack, Phases;
    LastRecordIsReadBack(h, i);
    LastRecordIsHonest(h, i);
  }

  /** The reader finds a final status for every item that completed, and whether a
      process had been created for it. */
  lemma FinalIsReadBack(h: seq<Event>, q: nat)
    requires Authorised(h) && Faithful(h) && Conditions(h) && q < |h| && h[q].Complete?
    ensures LastRecord(h, h[q].i).Some?
    ensures var e := ReadBack(LastRecord(h, h[q].i).value); e.Some? && Final(e.value.root.status) && (e.value.root.external <==> Ran(h[..q], h[q].i) != [])
  {
    hide Authorised, Faithful, Conditions, ReadBack, Final, Ran;
    CompletionStays(h, q);
    LastRecordIsReadBack(h, h[q].i);
  }
}
