/** A printed recovery record is read back as what was recorded. */
module RoundTrip {
  import opened JsonGrammar
  import opened JsonFields
  import opened JsonText
  import opened Decimal
  import opened Semver
  import opened Catalog
  import opened Publish
  import opened Records
  import opened Operations
  import opened Journal
  import Strings
  import Timestamps

  // ----- the printed text is UTF-8 without NUL -----

  lemma {:induction false} JoinedText(us: seq<CodePoint>, vs: seq<CodePoint>)
    ensures Utf8Text(us + vs) == Utf8Text(us) + Utf8Text(vs)
  {
    hide Utf8Bytes;
    if us == [] {
      assert us + vs == vs && "" + Utf8Text(vs) == Utf8Text(vs);
    } else {
      assert (us + vs)[1..] == us[1..] + vs;
      JoinedText(us[1..], vs);
      Assoc(Utf8Bytes(us[0]), Utf8Text(us[1..]), Utf8Text(vs));
    }
  }

  lemma JoinUtf8(a: string, b: string)
    requires IsUtf8(a) && IsUtf8(b)
    ensures IsUtf8(a + b)
  {
    hide Utf8Text;
    var us: seq<CodePoint> :| 0 !in us && Utf8Text(us) == a;
    var vs: seq<CodePoint> :| 0 !in vs && Utf8Text(vs) == b;
    JoinedText(us, vs);
    assert 0 !in us + vs && Utf8Text(us + vs) == a + b;
  }

  predicate Ascii(s: string) {
    forall i :: 0 <= i < |s| ==> 1 <= s[i] as int < 0x80
  }

  lemma {:induction false} AsciiIsUtf8(s: string)
    requires Ascii(s)
    ensures IsUtf8(s)
  {
    if s == "" {
      assert Utf8Text([]) == "";
    } else {
      AsciiIsUtf8(s[1..]);
      var us: seq<CodePoint> :| 0 !in us && Utf8Text(us) == s[1..];
      var u: CodePoint := s[0] as int;
      Cons(s);
      assert ([u] + us)[1..] == us && Utf8Bytes(u) == [s[0]];
      assert Utf8Text([u] + us) == s && 0 !in [u] + us;
    }
  }

  lemma EscapeAscii(c: char)
    requires 1 <= c as int < 0x80
    ensures Ascii(EscapeByte(c))
  {}

  lemma EscapeHigh(u: CodePoint, t: string, rest: string)
    requires u >= 0x80
    ensures EscapeText(Utf8Bytes(u) + t, rest) == Utf8Bytes(u) + EscapeText(t, rest)
  {
    BytesPlain(u);
    var b := Utf8Bytes(u);
    hide Utf8Bytes;
    PlainPrefix(b, t, rest);
  }

  lemma {:induction false} PlainPrefix(b: string, t: string, rest: string)
    requires forall i :: 0 <= i < |b| ==> PlainByte(b[i])
    ensures EscapeText(b + t, rest) == b + EscapeText(t, rest)
  {
    if b == "" {
      assert b + t == t && "" + EscapeText(t, rest) == EscapeText(t, rest);
    } else {
      assert (b + t)[1..] == b[1..] + t;
      PlainPrefix(b[1..], t, rest);
      Cons(b);
      Assoc([b[0]], b[1..], EscapeText(t, rest));
    }
  }

  /** Escaping keeps a text UTF-8. */
  lemma {:induction false} EscapedUtf8(us: seq<CodePoint>, rest: string)
    requires 0 !in us && IsUtf8(rest)
    ensures IsUtf8(EscapeText(Utf8Text(us), rest))
  {
    hide IsUtf8, EscapeByte;
    if us != [] {
      var u, t := us[0], Utf8Text(us[1..]);
      EscapedUtf8(us[1..], rest);
      if u >= 0x80 {
        EscapeHigh(u, t, rest);
        ScalarIsUtf8(u);
        JoinUtf8(Utf8Bytes(u), EscapeText(t, rest));
      } else {
        assert Utf8Bytes(u) == [u as char];
        assert ([u as char] + t)[1..] == t;
        EscapeAscii(u as char);
        AsciiIsUtf8(EscapeByte(u as char));
        JoinUtf8(EscapeByte(u as char), EscapeText(t, rest));
      }
    }
  }

  lemma ScalarIsUtf8(u: CodePoint)
    requires u != 0
    ensures IsUtf8(Utf8Bytes(u))
  {
    hide Utf8Bytes;
    assert [u][1..] == [] && Utf8Text([]) == "";
    assert Utf8Text([u]) == Utf8Bytes(u) + "" == Utf8Bytes(u);
    assert 0 !in [u];
  }

  lemma QuoteUtf8(t: string)
    requires IsUtf8(t)
    ensures IsUtf8(Quote(t))
  {
    hide Utf8Text;
    var us: seq<CodePoint> :| 0 !in us && Utf8Text(us) == t;
    AsciiIsUtf8("\"");
    EscapedUtf8(us, "\"");
    JoinUtf8("\"", EscapeText(t, "\""));
  }

  // ----- the parts of a record -----

  ghost predicate CleanPair(m: Pair) {
    Ascii(m.0) && IsUtf8(Bare(m.1, ""))
  }

  ghost predicate Clean(ms: seq<Pair>) {
    forall i :: 0 <= i < |ms| ==> CleanPair(ms[i])
  }

  lemma BareUtf8(v: Value, rest: string)
    requires IsUtf8(Bare(v, "")) && IsUtf8(rest)
    ensures IsUtf8(Bare(v, rest))
  {
    hide IsUtf8, Bare;
    BareFollowed(v, "", rest);
    assert "" + rest == rest;
    JoinUtf8(Bare(v, ""), rest);
  }

  lemma KeyUtf8(key: string)
    requires Ascii(key)
    ensures IsUtf8(KeyLead(key))
  {
    AsciiIsUtf8(KeyLead(key));
  }

  lemma CommaUtf8(t: string)
    requires IsUtf8(t)
    ensures IsUtf8("," + t)
  {
    AsciiIsUtf8(",");
    hide IsUtf8;
    JoinUtf8(",", t);
  }

  lemma {:induction false} PairsUtf8(ms: seq<Pair>, rest: string)
    requires Clean(ms) && IsUtf8(rest)
    ensures IsUtf8(PairsText(ms, rest))
  {
    if ms != [] {
      hide IsUtf8, KeyLead, Bare, Ascii;
      assert CleanPair(ms[0]);
      forall i | 0 <= i < |ms[1..]| ensures CleanPair(ms[1..][i]) { assert ms[1..][i] == ms[i + 1]; }
      PairsUtf8(ms[1..], rest);
      var t := if |ms| == 1 then rest else "," + PairsText(ms[1..], rest);
      if |ms| > 1 { CommaUtf8(PairsText(ms[1..], rest)); }
      BareUtf8(ms[0].1, t);
      KeyUtf8(ms[0].0);
      JoinUtf8(KeyLead(ms[0].0), Bare(ms[0].1, t));
    }
  }

  lemma TextClean(key: string, t: string)
    requires Ascii(key) && IsUtf8(Safe(t))
    ensures CleanPair((key, TextValue(t)))
  {
    TextIsTidy(t);
    QuoteUtf8(Safe(t));
  }

  lemma MaybeClean(key: string, t: Option<string>)
    requires Ascii(key) && (t.Some? ==> IsUtf8(Safe(t.value)))
    ensures CleanPair((key, MaybeValue(t)))
  {
    MaybeIsTidy(t);
    if t.Some? { QuoteUtf8(Safe(t.value)); } else { AsciiIsUtf8("null"); }
  }

  lemma WrappedUtf8(open: char, t: string, close: char)
    requires IsUtf8(t) && 1 <= open as int < 0x80 && 1 <= close as int < 0x80
    ensures IsUtf8([open] + (t + [close]))
  {
    AsciiIsUtf8([open]);
    AsciiIsUtf8([close]);
    hide IsUtf8;
    JoinUtf8(t, [close]);
    JoinUtf8([open], t + [close]);
  }

  lemma ObjectClean(key: string, ms: seq<Pair>)
    requires Ascii(key) && Tidy(ms) && Clean(ms)
    ensures CleanPair((key, ObjectOf(ms))) && IsUtf8(Bare(ObjectOf(ms), ""))
  {
    hide IsUtf8, Tidy, Clean, Ascii, Bare, PairsText;
    ObjectIsTidy(ms);
    EmptyUtf8();
    PairsUtf8(ms, "");
    WrappedUtf8('{', PairsText(ms, ""), '}');
    assert "{" + (PairsText(ms, "") + "}") == ['{'] + (PairsText(ms, "") + ['}']);
  }

  lemma EmptyUtf8()
    ensures IsUtf8("")
  {
    AsciiIsUtf8("");
  }

  lemma SingleClean(key: string, v: Value)
    requires Ascii(key) && WfValue(v) && v.ws == "" && IsUtf8(Bare(v, ""))
    ensures CleanPair((key, ArrayOf(Append(End, v))))
  {
    hide IsUtf8, Ascii, Bare, WfValue;
    SingleIsTidy(v);
    WrappedUtf8('[', Bare(v, ""), ']');
  }

  lemma {:induction false} PhasesUtf8(phases: seq<string>, i: nat)
    requires i <= |phases| && forall k :: 0 <= k < |phases| ==> IsUtf8(Safe(phases[k]))
    ensures IsUtf8(Elements(PhaseItems(phases[..i]), ""))
  {
    hide IsUtf8, Quote, Safe;
    if i == 0 {
      assert phases[..0] == [];
      PhasesNone();
      EmptyUtf8();
    } else {
      PhasesUtf8(phases, i - 1);
      PhaseNext(phases, i - 1);
      QuoteUtf8(Safe(phases[i - 1]));
      CommaUtf8(Quote(Safe(phases[i - 1])));
      var t := (if i == 1 then "" else ",") + Quote(Safe(phases[i - 1]));
      assert i == 1 ==> t == Quote(Safe(phases[i - 1]));
      JoinUtf8(Elements(PhaseItems(phases[..i - 1]), ""), t);
    }
  }

  lemma PhasesClean(key: string, phases: seq<string>)
    requires Ascii(key) && forall k :: 0 <= k < |phases| ==> IsUtf8(Safe(phases[k]))
    ensures CleanPair((key, ArrayOf(PhaseItems(phases))))
  {
    hide IsUtf8, Ascii, Bare, Safe, Elements, PhaseItems;
    PhasesWf(phases);
    ArrayIsTidy(PhaseItems(phases));
    PhasesUtf8(phases, |phases|);
    assert phases[..|phases|] == phases;
    WrappedUtf8('[', Elements(PhaseItems(phases), ""), ']');
  }

  lemma {:induction false} DigitsAreAscii(s: string)
    requires Digits(s)
    ensures Ascii(s)
  {
    forall i | 0 <= i < |s| ensures 1 <= s[i] as int < 0x80 { assert s[i] in s; }
  }

  lemma ExitClean(key: string, exit: Option<nat>)
    requires Ascii(key)
    ensures CleanPair((key, ExitValue(exit)))
  {
    ExitIsTidy(exit);
    if exit.Some? {
      DecimalValue(exit.value);
      DigitsAreAscii(DecimalText(exit.value));
      AsciiIsUtf8(DecimalText(exit.value));
    } else {
      AsciiIsUtf8("null");
    }
  }

  // ----- what a record must be to be read back -----

  /** Every text the record prints through the encoder. */
  function Texts(r: Record): seq<string> {
    [r.plan.recoveryId, r.plan.action, r.created, r.updated, r.planDigest, r.status, r.phase, r.plan.identity.name, r.plan.identity.arch,
     r.plan.source, r.plan.archive, HexText(r.plan.fingerprint), r.plan.retained, Relative(r.plan), StateName(r.retainedState),
     r.plan.identity.version, r.plan.oldVersion, r.plan.signer]
  }

  /** Redaction changes no text of the record. */
  predicate Untouched(r: Record) {
    forall i :: 0 <= i < |Texts(r)| ==> Safe(Texts(r)[i]) == Texts(r)[i]
  }

  /** The printed texts are UTF-8. */
  ghost predicate AllUtf8(r: Record) {
    && (forall i :: 0 <= i < |Texts(r)| ==> IsUtf8(Safe(Texts(r)[i])))
    && (forall k :: 0 <= k < |r.completed| ==> IsUtf8(Safe(r.completed[k])))
  }

  lemma UntouchedHead(r: Record)
    requires Untouched(r)
    ensures Safe(r.plan.recoveryId) == r.plan.recoveryId && Safe(r.plan.action) == r.plan.action && Safe(r.created) == r.created
    ensures Safe(r.updated) == r.updated && Safe(r.planDigest) == r.planDigest && Safe(r.status) == r.status && Safe(r.phase) == r.phase
  {
    hide Safe, HexText, Relative, StateName;
    var ts := Texts(r);
    assert Safe(ts[0]) == ts[0] && Safe(ts[1]) == ts[1] && Safe(ts[2]) == ts[2] && Safe(ts[3]) == ts[3] && Safe(ts[4]) == ts[4]
        && Safe(ts[5]) == ts[5] && Safe(ts[6]) == ts[6];
  }

  lemma UntouchedMiddle(r: Record)
    requires Untouched(r)
    ensures Safe(r.plan.identity.name) == r.plan.identity.name && Safe(r.plan.identity.arch) == r.plan.identity.arch
    ensures Safe(r.plan.source) == r.plan.source && Safe(r.plan.archive) == r.plan.archive
    ensures Safe(r.plan.identity.version) == r.plan.identity.version && Safe(r.plan.oldVersion) == r.plan.oldVersion
    ensures Safe(r.plan.signer) == r.plan.signer
  {
    hide Safe, HexText, Relative, StateName;
    var ts := Texts(r);
    assert Safe(ts[7]) == ts[7] && Safe(ts[8]) == ts[8] && Safe(ts[9]) == ts[9] && Safe(ts[10]) == ts[10] && Safe(ts[15]) == ts[15]
        && Safe(ts[16]) == ts[16] && Safe(ts[17]) == ts[17];
  }

  lemma UntouchedArtifact(r: Record)
    requires Untouched(r)
    ensures Safe(HexText(r.plan.fingerprint)) == HexText(r.plan.fingerprint) && Safe(r.plan.retained) == r.plan.retained
    ensures Safe(Relative(r.plan)) == Relative(r.plan) && Safe(StateName(r.retainedState)) == StateName(r.retainedState)
  {
    hide Safe, HexText, Relative, StateName;
    var ts := Texts(r);
    assert Safe(ts[11]) == ts[11] && Safe(ts[12]) == ts[12] && Safe(ts[13]) == ts[13] && Safe(ts[14]) == ts[14];
  }

  // ----- reading the printed members -----

  const KEYS: seq<string> := ["schema", "operationId", "operation", "created", "updated", "planDigest", "status", "phase", "package", "source", "signer", "validation", "input", "externalStateMayHaveChanged", "scriptExitCode", "retryEligible", "safeActions", "controlledArtifacts", "completedPhases", "failedPhase"]

  /** Length and first two characters tell the keys apart. */
  function Tag(key: string): int
    requires |key| >= 2
  {
    |key| * 0x10000 + key[0] as int * 0x100 + key[1] as int
  }

  const TAGS: seq<int> := [422755, 749424, 618352, 484210, 488816, 684140, 422772, 356456, 487521, 422767, 422761, 685665, 354670, 1795448, 947043, 881253, 750433, 1270639, 1008495, 747105]

  lemma TagOf(n: nat)
    requires n < 20
    ensures |KEYS| == 20 && |KEYS[n]| >= 2 && Tag(KEYS[n]) == TAGS[n]
  {
    if n < 7 { TagsLow(n); } else if n < 14 { TagsMiddle(n); } else { TagsHigh(n); }
  }

  lemma TagsLow(n: nat)
    requires 0 <= n < 7
    ensures |KEYS[n]| >= 2 && Tag(KEYS[n]) == TAGS[n]
  {}

  lemma TagsMiddle(n: nat)
    requires 7 <= n < 14
    ensures |KEYS[n]| >= 2 && Tag(KEYS[n]) == TAGS[n]
  {}

  lemma TagsHigh(n: nat)
    requires 14 <= n < 20
    ensures |KEYS[n]| >= 2 && Tag(KEYS[n]) == TAGS[n]
  {}

  lemma KeysDiffer(i: nat, n: nat)
    requires i < 20 && n < 20 && i != n
    ensures KEYS[i] != KEYS[n]
  {
    TagOf(i);
    TagOf(n);
    hide Tag;
    TagsDiffer(i, n);
  }

  lemma TagsDiffer(i: nat, n: nat)
    requires i < 20 && n < 20 && i != n
    ensures TAGS[i] != TAGS[n]
  {}

  lemma HeadAt(r: Record, n: nat)
    requires n < 8
    ensures |HeadPairs(r)| == 8 && HeadPairs(r)[n].0 == KEYS[n] && JournalPairs(r)[n] == HeadPairs(r)[n]
  {
    hide TextValue, Quote;
  }

  lemma MiddleAt(r: Record, n: nat)
    requires n < 6
    ensures |HeadPairs(r)| == 8 && |MiddlePairs(r)| == 6
    ensures MiddlePairs(r)[n].0 == KEYS[n + 8] && JournalPairs(r)[n + 8] == MiddlePairs(r)[n]
  {
    hide TextValue, Quote, MaybeValue, ObjectOf, PackagePairs, InputPairs;
  }

  lemma TailAt(r: Record, n: nat)
    requires n < 6
    ensures |HeadPairs(r)| == 8 && |MiddlePairs(r)| == 6 && |TailPairs(r)| == 6
    ensures TailPairs(r)[n].0 == KEYS[n + 14] && JournalPairs(r)[n + 14] == TailPairs(r)[n]
  {
    hide TextValue, Quote, MaybeValue, ObjectOf, PackagePairs, InputPairs, ArrayOf, Append, ArtifactPairs, PhaseItems, ExitValue;
  }

  lemma PairAt(r: Record, n: nat)
    requires n < 20
    ensures |JournalPairs(r)| == 20 && JournalPairs(r)[n].0 == KEYS[n]
  {
    hide HeadPairs, MiddlePairs, TailPairs;
    HeadAt(r, 0);
    MiddleAt(r, 0);
    TailAt(r, 0);
    if n < 8 { HeadAt(r, n); } else if n < 14 { MiddleAt(r, n - 8); } else { TailAt(r, n - 14); }
  }

  /** The members of the printed record. */
  function Printed(r: Record): (it: Items)
    ensures WfItems(true, it)
  {
    JournalTidy(r);
    MembersWf(JournalPairs(r));
    MembersOf(JournalPairs(r))
  }

  predicate ValueIs(r: Record, key: string, v: Value) {
    ValueOf(Printed(r), key) == Some(v)
  }

  predicate ReadsAs(r: Record, key: string, size: nat, nullable: bool, t: string) {
    TextField(Printed(r), key, size, nullable) == Some(t)
  }

  predicate FlagIs(r: Record, key: string, b: bool) {
    BoolField(Printed(r), key) == Some(b)
  }

  /** Each key of the printed record is found with its value. */
  lemma RootValue(r: Record, n: nat)
    requires n < 20
    ensures |JournalPairs(r)| == 20 && ValueIs(r, JournalPairs(r)[n].0, JournalPairs(r)[n].1)
  {
    var ms := JournalPairs(r);
    JournalTidy(r);
    PairAt(r, n);
    hide Tidy, JournalPairs, MembersOf, ValueOf;
    forall i | 0 <= i < |ms| && i != n ensures ms[i].0 != ms[n].0 {
      PairAt(r, i);
      KeysDiffer(i, n);
    }
    Lookup(ms, n);
  }

  lemma TextRead(r: Record, key: string, t: string, size: nat, nullable: bool)
    requires ValueIs(r, key, TextValue(t)) && Safe(t) == t && FieldFits(t, size)
    ensures ReadsAs(r, key, size, nullable, t)
  {
    hide Printed, ValueOf;
    TextIn(Printed(r), key, t, size, nullable);
  }

  lemma TextIn(it: Items, key: string, t: string, size: nat, nullable: bool)
    requires WfItems(true, it) && ValueOf(it, key) == Some(TextValue(t)) && Safe(t) == t && FieldFits(t, size)
    ensures TextField(it, key, size, nullable) == Some(t)
  {
    TextIsTidy(t);
    QuotedToken(t);
    hide Quote, ValueOf, Decode, IsStringToken;
  }

  lemma LiteralRead(r: Record, key: string, t: string, size: nat)
    requires ValueIs(r, key, Str("", Quote(t))) && FieldFits(t, size)
    ensures ReadsAs(r, key, size, false, t)
  {
    hide Printed, ValueOf;
    LiteralIn(Printed(r), key, t, size);
  }

  lemma LiteralIn(it: Items, key: string, t: string, size: nat)
    requires WfItems(true, it) && ValueOf(it, key) == Some(Str("", Quote(t))) && FieldFits(t, size)
    ensures TextField(it, key, size, false) == Some(t)
  {
    QuotedToken(t);
    hide Quote, ValueOf, Decode, IsStringToken;
  }

  lemma MaybeRead(r: Record, key: string, t: Option<string>, size: nat)
    requires ValueIs(r, key, MaybeValue(t)) && (t.Some? ==> Safe(t.value) == t.value && FieldFits(t.value, size))
    ensures ReadsAs(r, key, size, true, Or(t))
  {
    hide Printed, ValueOf;
    MaybeIn(Printed(r), key, t, size);
  }

  lemma MaybeIn(it: Items, key: string, t: Option<string>, size: nat)
    requires WfItems(true, it) && ValueOf(it, key) == Some(MaybeValue(t))
    requires t.Some? ==> Safe(t.value) == t.value && FieldFits(t.value, size)
    ensures TextField(it, key, size, true) == Some(Or(t))
  {
    hide ValueOf;
    if t.Some? { TextIn(it, key, t.value, size, true); }
  }

  /** The item and record a recovery record may be read back for. */
  ghost predicate Recordable(r: Record) {
    && RootReady(r) && TimesReady(r) && OriginReady(r) && PackageReady(r.plan) && InputReady(r.plan) && FieldFits(r.plan.retained, PATH)
    && (r.exit.Some? ==> r.exit.value <= UINT32_MAX)
  }

  predicate RootReady(r: Record) {
    && IsHex(r.plan.recoveryId, 32) && KnownAction(r.plan.action)
    && r.status in ["completed", "in-progress", "failed", "pending"] && FieldFits(r.phase, 32)
  }

  ghost predicate TimesReady(r: Record) {
    && Timestamps.IsStamp(r.created) && Timestamps.IsStamp(r.updated) && Strings.Compare(r.created, r.updated) <= 0
    && IsHex(r.planDigest, 64)
  }

  predicate OriginReady(r: Record) {
    && FieldFits(r.plan.source, PATH) && FieldFits(r.phase, 32)
    && (r.plan.signer == "" || r.plan.signer == "unsigned" || IsHex(r.plan.signer, 64))
  }

  predicate PackageReady(p: Plan) {
    && Filterable(p.identity.name, p.identity.arch) && FieldFits(p.identity.name, 128) && FieldFits(p.identity.arch, 16)
    && IsVersion(p.identity.version) && FieldFits(p.identity.version, 64)
    && (p.oldVersion == "none" || (IsVersion(p.oldVersion) && FieldFits(p.oldVersion, 64)))
  }

  predicate InputReady(p: Plan) {
    FieldFits(p.archive, PATH) && |p.fingerprint| == 32
  }

  function Or(t: Option<string>): string {
    if t.Some? then t.value else ""
  }

  function RootFor(r: Record): Root {
    Root("wpm.recovery.v1", r.plan.recoveryId, r.plan.action, r.created, r.updated, r.planDigest, r.status, r.phase,
         r.plan.source, r.plan.signer, "validated-before-approval", Or(FailedPhase(r)), r.external, false)
  }

  function PackageFor(r: Record): Package {
    Package(r.plan.identity.name, r.plan.identity.arch, Or(OldVersion(r.plan)), Or(NewVersion(r.plan)))
  }

  /** What reading a printed record must yield: the recorded fields. */
  function Expected(r: Record): RecoveryRecord {
    var removal := r.plan.action == "remove";
    RecoveryRecord(
      Root("wpm.recovery.v1", r.plan.recoveryId, r.plan.action, r.created, r.updated, r.planDigest, r.status, r.phase,
           r.plan.source, r.plan.signer, "validated-before-approval", if r.status == "failed" then r.phase else "", r.external, false),
      Package(r.plan.identity.name, r.plan.identity.arch,
              if removal then r.plan.identity.version else if r.plan.oldVersion == "none" then "" else r.plan.oldVersion,
              if removal then "" else r.plan.identity.version),
      (r.plan.archive, HexText(r.plan.fingerprint)), r.exit,
      Inventory(Some((r.plan.recoveryId + "/input.zip",
                      if r.retainedState == 2 then "retained" else if r.retainedState == 1 then "incomplete" else "planned")), true))
  }

  lemma HexFits(t: string, n: nat, size: nat)
    requires IsHex(t, n) && 0 < n < size
    ensures FieldFits(t, size)
  {
    forall c | c in t ensures c != '\0' {
      var i :| 0 <= i < |t| && t[i] == c;
    }
  }

  lemma StampFits(t: string)
    requires Timestamps.IsStamp(t)
    ensures FieldFits(t, 32)
  {
    Timestamps.StampIsShaped(t);
    var m :| Timestamps.Real(m) && Timestamps.Stamp(m) == t;
    hide Timestamps.Stamp;
    forall i | 0 <= i < 24 ensures t[i] != '\0' {
      Timestamps.ShapedIsFitting(t);
      assert Timestamps.Fitting(i, t[i]);
    }
  }

  lemma WordsFit(action: string, status: string)
    requires KnownAction(action) && status in ["completed", "in-progress", "failed", "pending"]
    ensures FieldFits(action, 16) && FieldFits(status, 16)
  {}

  lemma HeadText(r: Record, n: nat, t: string, size: nat)
    requires 1 <= n < 8 && |HeadPairs(r)| == 8 && HeadPairs(r)[n].1 == TextValue(t) && Safe(t) == t && FieldFits(t, size)
    ensures ReadsAs(r, HeadPairs(r)[n].0, size, false, t)
  {
    RootValue(r, n);
    HeadAt(r, n);
    hide *;
    TextRead(r, HeadPairs(r)[n].0, t, size, false);
  }

  lemma IdentityFits(r: Record)
    requires RootReady(r)
    ensures FieldFits(r.plan.recoveryId, 33) && FieldFits(r.plan.action, 16) && FieldFits(r.status, 16) && FieldFits(r.phase, 32)
  {
    HexFits(r.plan.recoveryId, 32, 33);
    WordsFit(r.plan.action, r.status);
  }

  lemma ReadsIdentity(r: Record)
    requires RootReady(r) && Untouched(r)
    ensures ReadsAs(r, "operationId", 33, false, r.plan.recoveryId)
    ensures ReadsAs(r, "operation", 16, false, r.plan.action)
    ensures ReadsAs(r, "status", 16, false, r.status)
    ensures ReadsAs(r, "phase", 32, false, r.phase)
  {
    hide *;
    UntouchedHead(r);
    IdentityFits(r);
    HeadIs(r);
    HeadText(r, 1, r.plan.recoveryId, 33);
    HeadText(r, 2, r.plan.action, 16);
    HeadText(r, 6, r.status, 16);
    HeadText(r, 7, r.phase, 32);
  }

  lemma HeadIs(r: Record)
    ensures var p := HeadPairs(r);
            && |p| == 8 && p[1] == ("operationId", TextValue(r.plan.recoveryId)) && p[2] == ("operation", TextValue(r.plan.action))
            && p[3] == ("created", TextValue(r.created)) && p[4] == ("updated", TextValue(r.updated))
            && p[5] == ("planDigest", TextValue(r.planDigest)) && p[6] == ("status", TextValue(r.status)) && p[7] == ("phase", TextValue(r.phase))
  {
    hide TextValue, Quote;
  }

  lemma TimesFit(r: Record)
    requires TimesReady(r)
    ensures FieldFits(r.planDigest, 65) && FieldFits(r.created, 32) && FieldFits(r.updated, 32)
  {
    HexFits(r.planDigest, 64, 65);
    StampFits(r.created);
    StampFits(r.updated);
  }

  lemma ReadsTimes(r: Record)
    requires TimesReady(r) && Untouched(r)
    ensures ReadsAs(r, "created", 32, false, r.created)
    ensures ReadsAs(r, "updated", 32, false, r.updated)
    ensures ReadsAs(r, "planDigest", 65, false, r.planDigest)
  {
    hide *;
    UntouchedHead(r);
    TimesFit(r);
    HeadIs(r);
    HeadText(r, 3, r.created, 32);
    HeadText(r, 4, r.updated, 32);
    HeadText(r, 5, r.planDigest, 65);
  }

  lemma MiddleIs(r: Record)
    ensures var p := MiddlePairs(r);
            && |p| == 6 && p[0] == ("package", ObjectOf(PackagePairs(r.plan))) && p[1] == ("source", TextValue(r.plan.source))
            && p[2] == ("signer", MaybeValue(Signer(r.plan))) && p[3] == ("validation", Str("", Quote("validated-before-approval")))
            && p[4] == ("input", ObjectOf(InputPairs(r.plan)))
            && p[5] == ("externalStateMayHaveChanged", Word("", if r.external then "true" else "false"))
  {
    hide TextValue, Quote, ObjectOf, MaybeValue, PackagePairs, InputPairs, Signer;
  }

  lemma TailIs(r: Record)
    ensures var p := TailPairs(r);
            && |p| == 6 && p[0] == ("scriptExitCode", ExitValue(r.exit)) && p[1] == ("retryEligible", Word("", "false"))
            && p[2] == ("safeActions", ArrayOf(Append(End, Str("", Quote("inspect")))))
            && p[3] == ("controlledArtifacts", ArrayOf(Append(End, ObjectOf(ArtifactPairs(r)))))
            && p[4] == ("completedPhases", ArrayOf(PhaseItems(r.completed))) && p[5] == ("failedPhase", MaybeValue(FailedPhase(r)))
  {
    hide TextValue, Quote, ObjectOf, MaybeValue, ArtifactPairs, ArrayOf, Append, PhaseItems, ExitValue, FailedPhase;
  }

  /** The value of a member by its place in the printed record. */
  lemma HeadValue(r: Record, n: nat)
    requires n < 8
    ensures |HeadPairs(r)| == 8 && ValueIs(r, HeadPairs(r)[n].0, HeadPairs(r)[n].1)
  {
    RootValue(r, n);
    HeadAt(r, n);
  }

  lemma MiddleValue(r: Record, n: nat)
    requires n < 6
    ensures |MiddlePairs(r)| == 6 && ValueIs(r, MiddlePairs(r)[n].0, MiddlePairs(r)[n].1)
  {
    hide *;
    RootValue(r, n + 8);
    MiddleAt(r, n);
  }

  lemma TailValue(r: Record, n: nat)
    requires n < 6
    ensures |TailPairs(r)| == 6 && ValueIs(r, TailPairs(r)[n].0, TailPairs(r)[n].1)
  {
    hide *;
    RootValue(r, n + 14);
    TailAt(r, n);
  }

  lemma LiteralsFit()
    ensures FieldFits("wpm.recovery.v1", 32) && FieldFits("validated-before-approval", 48) && FieldFits("recovery-input", 32) && FieldFits("inspect", 16)
  {}

  lemma SchemaIs(r: Record)
    ensures |HeadPairs(r)| == 8 && HeadPairs(r)[0] == ("schema", Str("", Quote("wpm.recovery.v1")))
  {
    hide TextValue, Quote;
  }

  lemma ReadsSchema(r: Record)
    ensures ReadsAs(r, "schema", 32, false, "wpm.recovery.v1")
    ensures ReadsAs(r, "validation", 48, false, "validated-before-approval")
  {
    QuotedToken("wpm.recovery.v1");
    QuotedToken("validated-before-approval");
    hide *;
    LiteralsFit();
    SchemaIs(r);
    MiddleIs(r);
    HeadValue(r, 0);
    MiddleValue(r, 3);
    LiteralRead(r, "schema", "wpm.recovery.v1", 32);
    LiteralRead(r, "validation", "validated-before-approval", 48);
  }

  lemma SignerFits(t: string)
    requires t == "" || t == "unsigned" || IsHex(t, 64)
    ensures t != "" ==> FieldFits(t, 65)
  {
    if IsHex(t, 64) { HexFits(t, 64, 65); }
  }

  lemma SignerReads(r: Record)
    requires OriginReady(r) && Untouched(r)
    ensures Or(Signer(r.plan)) == r.plan.signer
    ensures Signer(r.plan).Some? ==> Safe(Signer(r.plan).value) == Signer(r.plan).value && FieldFits(Signer(r.plan).value, 65)
    ensures FailedPhase(r).Some? ==> Safe(FailedPhase(r).value) == FailedPhase(r).value && FieldFits(FailedPhase(r).value, 32)
  {
    hide Safe, IsHex, FieldFits, Untouched;
    UntouchedHead(r);
    UntouchedMiddle(r);
    SignerFits(r.plan.signer);
  }

  lemma SourceFits(r: Record)
    requires OriginReady(r)
    ensures FieldFits(r.plan.source, PATH)
  {}

  lemma ReadsOrigin(r: Record)
    requires OriginReady(r) && Untouched(r)
    ensures ReadsAs(r, "source", PATH, false, r.plan.source)
    ensures ReadsAs(r, "signer", 65, true, r.plan.signer)
    ensures ReadsAs(r, "failedPhase", 32, true, Or(FailedPhase(r)))
  {
    hide *;
    UntouchedMiddle(r);
    SourceFits(r);
    SignerReads(r);
    MiddleIs(r);
    TailIs(r);
    MiddleValue(r, 1);
    MiddleValue(r, 2);
    TailValue(r, 5);
    TextRead(r, "source", r.plan.source, PATH, false);
    MaybeRead(r, "signer", Signer(r.plan), 65);
    MaybeRead(r, "failedPhase", FailedPhase(r), 32);
  }

  lemma ReadsFlags(r: Record)
    ensures FlagIs(r, "externalStateMayHaveChanged", r.external)
    ensures FlagIs(r, "retryEligible", false)
  {
    hide *;
    MiddleIs(r);
    TailIs(r);
    MiddleValue(r, 5);
    TailValue(r, 1);
    FlagRead(r, "externalStateMayHaveChanged", r.external);
    FlagRead(r, "retryEligible", false);
  }

  lemma FlagRead(r: Record, key: string, b: bool)
    requires ValueIs(r, key, Word("", if b then "true" else "false"))
    ensures FlagIs(r, key, b)
  {
    hide Printed, ValueOf;
  }

  lemma RecordableParts(r: Record)
    requires Recordable(r)
    ensures RootReady(r) && TimesReady(r) && OriginReady(r) && PackageReady(r.plan) && InputReady(r.plan) && FieldFits(r.plan.retained, PATH)
    ensures IsHex(r.plan.recoveryId, 32) && (r.exit.Some? ==> r.exit.value <= UINT32_MAX)
  {
    hide TimesReady, OriginReady, PackageReady, InputReady, FieldFits, IsHex;
  }

  lemma RootBuilt(r: Record)
    requires ReadsAs(r, "schema", 32, false, "wpm.recovery.v1") && ReadsAs(r, "operationId", 33, false, r.plan.recoveryId)
    requires ReadsAs(r, "operation", 16, false, r.plan.action) && ReadsAs(r, "created", 32, false, r.created)
    requires ReadsAs(r, "updated", 32, false, r.updated) && ReadsAs(r, "planDigest", 65, false, r.planDigest)
    requires ReadsAs(r, "status", 16, false, r.status) && ReadsAs(r, "phase", 32, false, r.phase)
    requires ReadsAs(r, "source", PATH, false, r.plan.source) && ReadsAs(r, "signer", 65, true, r.plan.signer)
    requires ReadsAs(r, "validation", 48, false, "validated-before-approval") && ReadsAs(r, "failedPhase", 32, true, Or(FailedPhase(r)))
    requires FlagIs(r, "externalStateMayHaveChanged", r.external) && FlagIs(r, "retryEligible", false)
    ensures RootOf(Printed(r)) == Some(RootFor(r))
  {
    hide Printed, TextField, BoolField, FailedPhase;
  }

  lemma ReadsRoot(r: Record)
    requires Recordable(r) && Untouched(r)
    ensures RootOf(Printed(r)) == Some(RootFor(r))
  {
    hide *;
    RecordableParts(r);
    ReadsSchema(r);
    ReadsIdentity(r);
    ReadsTimes(r);
    ReadsOrigin(r);
    ReadsFlags(r);
    RootBuilt(r);
  }

  // ----- package, input and artifact -----

  lemma PackageValue(r: Record, n: nat)
    requires n < 4
    ensures |PackagePairs(r.plan)| == 4 && WfItems(true, MembersOf(PackagePairs(r.plan)))
    ensures ValueOf(MembersOf(PackagePairs(r.plan)), PackagePairs(r.plan)[n].0) == Some(PackagePairs(r.plan)[n].1)
  {
    PackageTidy(r.plan);
    hide TextValue, MaybeValue, Tidy, ValueOf, MembersOf, OldVersion, NewVersion;
    Lookup(PackagePairs(r.plan), n);
  }

  lemma VersionReads(r: Record)
    requires PackageReady(r.plan) && Untouched(r)
    ensures OldVersion(r.plan).Some? ==> Safe(OldVersion(r.plan).value) == OldVersion(r.plan).value && FieldFits(OldVersion(r.plan).value, 64)
    ensures NewVersion(r.plan).Some? ==> Safe(NewVersion(r.plan).value) == NewVersion(r.plan).value && FieldFits(NewVersion(r.plan).value, 64)
  {
    hide Safe, Untouched, FieldFits, IsVersion, Filterable;
    UntouchedMiddle(r);
  }

  lemma PackageIs(p: Plan)
    ensures var ms := PackagePairs(p);
            && |ms| == 4 && ms[0] == ("name", TextValue(p.identity.name)) && ms[1] == ("arch", TextValue(p.identity.arch))
            && ms[2] == ("oldVersion", MaybeValue(OldVersion(p))) && ms[3] == ("newVersion", MaybeValue(NewVersion(p)))
  {
    hide TextValue, MaybeValue, OldVersion, NewVersion;
  }

  lemma NamesFit(p: Plan)
    requires PackageReady(p)
    ensures FieldFits(p.identity.name, 128) && FieldFits(p.identity.arch, 16)
  {
    hide IsVersion, Filterable, FieldFits;
  }

  lemma PackageBuilt(r: Record, it: Items)
    requires WfItems(true, it)
    requires TextField(it, "name", 128, false) == Some(r.plan.identity.name) && TextField(it, "arch", 16, false) == Some(r.plan.identity.arch)
    requires TextField(it, "oldVersion", 64, true) == Some(Or(OldVersion(r.plan)))
    requires TextField(it, "newVersion", 64, true) == Some(Or(NewVersion(r.plan)))
    ensures PackageOf(it) == Some(PackageFor(r))
  {
    hide TextField, OldVersion, NewVersion;
  }

  lemma ReadsPackage(r: Record)
    requires PackageReady(r.plan) && Untouched(r)
    ensures WfItems(true, MembersOf(PackagePairs(r.plan))) && PackageOf(MembersOf(PackagePairs(r.plan))) == Some(PackageFor(r))
  {
    hide *;
    var it := MembersOf(PackagePairs(r.plan));
    UntouchedMiddle(r);
    NamesFit(r.plan);
    VersionReads(r);
    PackageIs(r.plan);
    PackageValue(r, 0);
    PackageValue(r, 1);
    PackageValue(r, 2);
    PackageValue(r, 3);
    TextIn(it, "name", r.plan.identity.name, 128, false);
    TextIn(it, "arch", r.plan.identity.arch, 16, false);
    MaybeIn(it, "oldVersion", OldVersion(r.plan), 64);
    MaybeIn(it, "newVersion", NewVersion(r.plan), 64);
    PackageBuilt(r, it);
  }

  lemma InputIs(p: Plan)
    ensures var ms := InputPairs(p);
            |ms| == 2 && ms[0] == ("path", TextValue(p.archive)) && ms[1] == ("blake2b256", TextValue(HexText(p.fingerprint)))
  {
    hide TextValue, HexText;
  }

  lemma InputValue(r: Record, n: nat)
    requires n < 2
    ensures |InputPairs(r.plan)| == 2 && WfItems(true, MembersOf(InputPairs(r.plan)))
    ensures ValueOf(MembersOf(InputPairs(r.plan)), InputPairs(r.plan)[n].0) == Some(InputPairs(r.plan)[n].1)
  {
    InputTidy(r.plan);
    hide TextValue, Tidy, ValueOf, MembersOf, HexText;
    Lookup(InputPairs(r.plan), n);
  }

  lemma {:induction false} HexIs(bytes: string)
    ensures |HexText(bytes)| == 2 * |bytes|
    ensures forall i :: 0 <= i < |HexText(bytes)| ==> '0' <= HexText(bytes)[i] <= '9' || 'a' <= HexText(bytes)[i] <= 'f'
  {
    if bytes != "" { HexIs(bytes[1..]); }
  }

  lemma FingerprintFits(bytes: string)
    requires |bytes| == 32
    ensures IsHex(HexText(bytes), 64) && FieldFits(HexText(bytes), 65)
  {
    HexIs(bytes);
    hide HexText;
    HexFits(HexText(bytes), 64, 65);
  }

  lemma InputFits(p: Plan)
    requires InputReady(p)
    ensures FieldFits(p.archive, PATH) && FieldFits(HexText(p.fingerprint), 65) && IsHex(HexText(p.fingerprint), 64)
  {
    hide HexText, IsHex, FieldFits;
    FingerprintFits(p.fingerprint);
  }

  lemma InputBuilt(it: Items, path: string, digest: string)
    requires WfItems(true, it)
    requires TextField(it, "path", PATH, false) == Some(path) && TextField(it, "blake2b256", 65, false) == Some(digest)
    ensures InputOf(it) == Some((path, digest))
  {
    hide TextField;
  }

  lemma ReadsInput(r: Record)
    requires InputReady(r.plan) && Untouched(r)
    ensures WfItems(true, MembersOf(InputPairs(r.plan))) && InputOf(MembersOf(InputPairs(r.plan))) == Some((r.plan.archive, HexText(r.plan.fingerprint)))
  {
    hide *;
    var it := MembersOf(InputPairs(r.plan));
    UntouchedMiddle(r);
    UntouchedArtifact(r);
    InputFits(r.plan);
    InputIs(r.plan);
    InputValue(r, 0);
    InputValue(r, 1);
    TextIn(it, "path", r.plan.archive, PATH, false);
    TextIn(it, "blake2b256", HexText(r.plan.fingerprint), 65, false);
    InputBuilt(it, r.plan.archive, HexText(r.plan.fingerprint));
  }

  lemma ArtifactIs(r: Record)
    ensures var ms := ArtifactPairs(r);
            && |ms| == 5 && ms[0] == ("role", Str("", Quote("recovery-input"))) && ms[1] == ("path", TextValue(r.plan.retained))
            && ms[2] == ("relativePath", TextValue(Relative(r.plan))) && ms[3] == ("blake2b256", TextValue(HexText(r.plan.fingerprint)))
            && ms[4] == ("state", TextValue(StateName(r.retainedState)))
  {
    hide TextValue, HexText, Quote, Relative, StateName;
  }

  lemma ArtifactMember(r: Record, n: nat)
    requires n < 5
    ensures |ArtifactPairs(r)| == 5 && WfItems(true, MembersOf(ArtifactPairs(r)))
    ensures ValueOf(MembersOf(ArtifactPairs(r)), ArtifactPairs(r)[n].0) == Some(ArtifactPairs(r)[n].1)
  {
    ArtifactTidy(r);
    hide TextValue, Tidy, ValueOf, MembersOf, HexText, Relative, StateName, Quote;
    Lookup(ArtifactPairs(r), n);
  }

  lemma ArtifactFits(r: Record)
    requires IsHex(r.plan.recoveryId, 32)
    ensures FieldFits(Relative(r.plan), 256) && FieldFits(StateName(r.retainedState), 16)
    ensures StateName(r.retainedState) in ["planned", "incomplete", "retained"]
  {
    HexFits(r.plan.recoveryId, 32, 33);
  }

  lemma RetainedBuilt(it: Items, path: string, relative: string, digest: string, state: string)
    requires WfItems(true, it) && state in ["planned", "incomplete", "retained"]
    requires TextField(it, "path", PATH, false) == Some(path) && TextField(it, "relativePath", 256, false) == Some(relative)
    requires TextField(it, "blake2b256", 65, false) == Some(digest) && TextField(it, "state", 16, false) == Some(state)
    ensures RetainedInput(it, digest) == Some((relative, state))
  {
    hide TextField;
  }

  lemma ReadsArtifact(r: Record)
    requires IsHex(r.plan.recoveryId, 32) && InputReady(r.plan) && FieldFits(r.plan.retained, PATH) && Untouched(r)
    ensures var it := MembersOf(ArtifactPairs(r));
            && WfItems(true, it) && TextField(it, "role", 32, false) == Some("recovery-input")
            && RetainedInput(it, HexText(r.plan.fingerprint)) == Some((Relative(r.plan), StateName(r.retainedState)))
  {
    hide *;
    var it := MembersOf(ArtifactPairs(r));
    UntouchedArtifact(r);
    InputFits(r.plan);
    ArtifactFits(r);
    LiteralsFit();
    ArtifactIs(r);
    ArtifactMember(r, 0);
    ArtifactMember(r, 1);
    ArtifactMember(r, 2);
    ArtifactMember(r, 3);
    ArtifactMember(r, 4);
    LiteralIn(it, "role", "recovery-input", 32);
    TextIn(it, "path", r.plan.retained, PATH, false);
    TextIn(it, "relativePath", Relative(r.plan), 256, false);
    TextIn(it, "blake2b256", HexText(r.plan.fingerprint), 65, false);
    TextIn(it, "state", StateName(r.retainedState), 16, false);
    RetainedBuilt(it, r.plan.retained, Relative(r.plan), HexText(r.plan.fingerprint), StateName(r.retainedState));
  }

  // ----- the lists, and the whole record -----

  lemma ExitReads(exit: Option<nat>)
    requires exit.Some? ==> exit.value <= UINT32_MAX
    ensures WfValue(ExitValue(exit)) && ExitOf(ExitValue(exit)) == Some(exit)
  {
    ExitIsTidy(exit);
    if exit.Some? { DecimalValue(exit.value); }
    hide DecimalText, NatOf, Digits;
  }

  lemma StringReads(t: string, size: nat)
    requires FieldFits(t, size)
    ensures WfValue(Str("", Quote(t))) && StringIn(Str("", Quote(t)), size) == Some(t)
  {
    QuotedToken(t);
    hide Quote, Decode, IsStringToken;
  }

  lemma OneString(v: Value)
    requires WfValue(v) && StringIn(v, 16) == Some("inspect")
    ensures var a := ArrayOf(Append(End, v)); WfValue(a) && OnlyInspect(a)
  {
    hide StringIn;
    AppendWf(End, v);
    assert Append(End, v) == Items.Item("", "", "", v, "", End);
  }

  lemma InspectReads()
    ensures var v := ArrayOf(Append(End, Str("", Quote("inspect")))); WfValue(v) && OnlyInspect(v)
  {
    hide *;
    LiteralsFit();
    StringReads("inspect", 16);
    OneString(Str("", Quote("inspect")));
  }

  lemma ArtifactsRead(r: Record)
    requires IsHex(r.plan.recoveryId, 32) && InputReady(r.plan) && FieldFits(r.plan.retained, PATH) && Untouched(r)
    ensures var items := Append(End, ObjectOf(ArtifactPairs(r)));
            && WfItems(false, items)
            && Artifacts(items, Inventory(None, true), 0, HexText(r.plan.fingerprint)) ==
               Some(Inventory(Some((Relative(r.plan), StateName(r.retainedState))), true))
  {
    hide *;
    ReadsArtifact(r);
    ArtifactTidy(r);
    ObjectIsTidy(ArtifactPairs(r));
    OneArtifact(ArtifactPairs(r), HexText(r.plan.fingerprint), (Relative(r.plan), StateName(r.retainedState)));
  }

  lemma OneArtifact(ms: seq<Pair>, fingerprint: string, x: (string, string))
    requires WfItems(true, MembersOf(ms)) && WfValue(ObjectOf(ms))
    requires TextField(MembersOf(ms), "role", 32, false) == Some("recovery-input") && RetainedInput(MembersOf(ms), fingerprint) == Some(x)
    ensures WfItems(false, Append(End, ObjectOf(ms)))
    ensures Artifacts(Append(End, ObjectOf(ms)), Inventory(None, true), 0, fingerprint) == Some(Inventory(Some(x), true))
  {
    hide TextField, RetainedInput, MembersOf;
    AppendWf(End, ObjectOf(ms));
    assert Append(End, ObjectOf(ms)) == Items.Item("", "", "", ObjectOf(ms), "", End);
  }

  lemma ListsBuilt(r: Record, it: Items, fingerprint: string, inventory: Inventory)
    requires WfItems(true, it)
    requires ValueOf(it, "scriptExitCode") == Some(ExitValue(r.exit)) && WfValue(ExitValue(r.exit)) && ExitOf(ExitValue(r.exit)) == Some(r.exit)
    requires var v := ArrayOf(Append(End, Str("", Quote("inspect")))); ValueOf(it, "safeActions") == Some(v) && WfValue(v) && OnlyInspect(v)
    requires var items := Append(End, ObjectOf(ArtifactPairs(r)));
             && ValueOf(it, "controlledArtifacts") == Some(ArrayOf(items)) && WfItems(false, items)
             && Artifacts(items, Inventory(None, true), 0, fingerprint) == Some(inventory)
    requires ValueOf(it, "completedPhases") == Some(ArrayOf(PhaseItems(r.completed)))
    ensures Lists(it, fingerprint) == Some((r.exit, inventory))
  {
    hide ValueOf, ExitOf, ExitValue, OnlyInspect, Artifacts, Append, ObjectOf, ArtifactPairs, PhaseItems, Quote;
  }

  lemma ReadsLists(r: Record)
    requires Recordable(r) && Untouched(r)
    ensures Lists(Printed(r), HexText(r.plan.fingerprint)) ==
            Some((r.exit, Inventory(Some((Relative(r.plan), StateName(r.retainedState))), true)))
  {
    hide *;
    RecordableParts(r);
    ExitReads(r.exit);
    InspectReads();
    ArtifactsRead(r);
    TailIs(r);
    TailValue(r, 0);
    TailValue(r, 2);
    TailValue(r, 3);
    TailValue(r, 4);
    ValueMeans(r, "scriptExitCode", ExitValue(r.exit));
    ValueMeans(r, "safeActions", ArrayOf(Append(End, Str("", Quote("inspect")))));
    ValueMeans(r, "controlledArtifacts", ArrayOf(Append(End, ObjectOf(ArtifactPairs(r)))));
    ValueMeans(r, "completedPhases", ArrayOf(PhaseItems(r.completed)));
    ListsBuilt(r, Printed(r), HexText(r.plan.fingerprint), Inventory(Some((Relative(r.plan), StateName(r.retainedState))), true));
  }

  lemma ValueMeans(r: Record, key: string, v: Value)
    requires ValueIs(r, key, v)
    ensures ValueOf(Printed(r), key) == Some(v)
  {
    hide Printed, ValueOf;
  }

  lemma VersionGiven(p: Plan)
    requires PackageReady(p) && KnownAction(p.action)
    ensures Or(OldVersion(p)) == "" || IsVersion(Or(OldVersion(p)))
    ensures Or(NewVersion(p)) == "" || IsVersion(Or(NewVersion(p)))
    ensures p.action == "remove" <==> Or(NewVersion(p)) == ""
  {
    VersionNotEmpty(p.identity.version);
    hide ParseVersion, Filterable, FieldFits;
  }

  /** The expected record satisfies the reader's conditions. */
  lemma CoherentRecord(r: Record)
    requires Recordable(r)
    ensures Coherent(RootFor(r), PackageFor(r), (r.plan.archive, HexText(r.plan.fingerprint)), r.plan.recoveryId)
  {
    RecordableParts(r);
    InputFits(r.plan);
    VersionGiven(r.plan);
    hide IsVersion, HexText, IsHex, FieldFits, Filterable, Timestamps.IsStamp, Strings.Compare, OldVersion, NewVersion, Recordable;
  }

  lemma PackageObject(r: Record)
    ensures WfItems(true, MembersOf(PackagePairs(r.plan))) && ObjectIn(Printed(r), "package") == Some(MembersOf(PackagePairs(r.plan)))
    ensures WfItems(true, MembersOf(InputPairs(r.plan))) && ObjectIn(Printed(r), "input") == Some(MembersOf(InputPairs(r.plan)))
  {
    hide *;
    MiddleIs(r);
    MiddleValue(r, 0);
    MiddleValue(r, 4);
    PackageValue(r, 0);
    InputValue(r, 0);
    ValueMeans(r, "package", ObjectOf(PackagePairs(r.plan)));
    ValueMeans(r, "input", ObjectOf(InputPairs(r.plan)));
    ObjectMeans(Printed(r), "package", PackagePairs(r.plan));
    ObjectMeans(Printed(r), "input", InputPairs(r.plan));
  }

  lemma ObjectMeans(it: Items, key: string, ms: seq<Pair>)
    requires WfItems(true, it) && ValueOf(it, key) == Some(ObjectOf(ms))
    ensures ObjectIn(it, key) == Some(MembersOf(ms))
  {
    hide ValueOf, MembersOf;
  }

  lemma AssembledFrom(it: Items, id: string, package: Items, input: Items, root: Root, p: Package, i: (string, string), exit: Option<nat>, inventory: Inventory)
    requires WfItems(true, it) && WfItems(true, package) && WfItems(true, input)
    requires ObjectIn(it, "package") == Some(package) && ObjectIn(it, "input") == Some(input)
    requires RootOf(it) == Some(root) && PackageOf(package) == Some(p) && InputOf(input) == Some(i) && Coherent(root, p, i, id)
    requires Lists(it, i.1) == Some((exit, inventory))
    ensures Assembled(it, id) == Some(RecoveryRecord(root, p, i, exit, inventory))
  {
    hide ObjectIn, RootOf, PackageOf, InputOf, Coherent, Lists;
  }

  /** Reading a printed record yields what was recorded. */
  lemma PrintedIsRead(r: Record)
    requires Recordable(r) && Untouched(r)
    ensures JournalTree(r).Wf() && RecordOf(JournalTree(r), r.plan.recoveryId) == Some(Expected(r))
  {
    hide *;
    RecordableParts(r);
    ReadsRoot(r);
    ReadsPackage(r);
    ReadsInput(r);
    ReadsLists(r);
    CoherentRecord(r);
    PackageObject(r);
    AssembledFrom(Printed(r), r.plan.recoveryId, MembersOf(PackagePairs(r.plan)), MembersOf(InputPairs(r.plan)),
                  RootFor(r), PackageFor(r), (r.plan.archive, HexText(r.plan.fingerprint)), r.exit,
                  Inventory(Some((Relative(r.plan), StateName(r.retainedState))), true));
    TreeIsPrinted(r);
    ExpectedIs(r);
  }

  lemma ExpectedIs(r: Record)
    ensures Expected(r) == RecoveryRecord(RootFor(r), PackageFor(r), (r.plan.archive, HexText(r.plan.fingerprint)), r.exit,
                                          Inventory(Some((Relative(r.plan), StateName(r.retainedState))), true))
  {}

  lemma TreeIsPrinted(r: Record)
    ensures JournalTree(r).Wf() && RecordOf(JournalTree(r), r.plan.recoveryId) == Assembled(Printed(r), r.plan.recoveryId)
  {
    JournalTidy(r);
    JournalText(r);
    hide Assembled, JournalPairs, MembersOf;
  }

  lemma PackageClean(r: Record)
    requires IsUtf8(Safe(r.plan.identity.name)) && IsUtf8(Safe(r.plan.identity.arch))
    requires OldVersion(r.plan).Some? ==> IsUtf8(Safe(OldVersion(r.plan).value))
    requires NewVersion(r.plan).Some? ==> IsUtf8(Safe(NewVersion(r.plan).value))
    ensures CleanPair(("package", ObjectOf(PackagePairs(r.plan))))
  {
    hide *;
    PackageNames();
    TextClean("name", r.plan.identity.name);
    TextClean("arch", r.plan.identity.arch);
    MaybeClean("oldVersion", OldVersion(r.plan));
    MaybeClean("newVersion", NewVersion(r.plan));
    PackageIs(r.plan);
    PackageTidy(r.plan);
    Clean4(PackagePairs(r.plan));
    ObjectClean("package", PackagePairs(r.plan));
  }

  lemma PackageNames()
    ensures Ascii("name") && Ascii("arch") && Ascii("oldVersion") && Ascii("newVersion") && Ascii("package")
  {}

  lemma Clean4(ms: seq<Pair>)
    requires |ms| == 4 && CleanPair(ms[0]) && CleanPair(ms[1]) && CleanPair(ms[2]) && CleanPair(ms[3])
    ensures Clean(ms)
  {
    hide CleanPair;
  }

  lemma InputClean(r: Record)
    requires IsUtf8(Safe(r.plan.archive)) && IsUtf8(Safe(HexText(r.plan.fingerprint)))
    ensures CleanPair(("input", ObjectOf(InputPairs(r.plan))))
  {
    hide *;
    InputNames();
    TextClean("path", r.plan.archive);
    TextClean("blake2b256", HexText(r.plan.fingerprint));
    InputIs(r.plan);
    InputTidy(r.plan);
    Clean2(InputPairs(r.plan));
    ObjectClean("input", InputPairs(r.plan));
  }

  lemma InputNames()
    ensures Ascii("path") && Ascii("blake2b256") && Ascii("input")
  {}

  lemma Clean2(ms: seq<Pair>)
    requires |ms| == 2 && CleanPair(ms[0]) && CleanPair(ms[1])
    ensures Clean(ms)
  {
    hide CleanPair;
  }

  lemma ArtifactClean(r: Record)
    requires IsUtf8(Safe(r.plan.retained)) && IsUtf8(Safe(HexText(r.plan.fingerprint))) && IsUtf8(Safe(Relative(r.plan)))
    requires IsUtf8(Safe(StateName(r.retainedState)))
    ensures CleanPair(("controlledArtifacts", ArrayOf(Append(End, ObjectOf(ArtifactPairs(r))))))
  {
    hide *;
    ArtifactNames();
    LiteralClean("role", "recovery-input");
    TextClean("path", r.plan.retained);
    TextClean("relativePath", Relative(r.plan));
    TextClean("blake2b256", HexText(r.plan.fingerprint));
    TextClean("state", StateName(r.retainedState));
    ArtifactIs(r);
    ArtifactTidy(r);
    Clean5(ArtifactPairs(r));
    ObjectClean("controlledArtifacts", ArtifactPairs(r));
    ObjectIsTidy(ArtifactPairs(r));
    SingleClean("controlledArtifacts", ObjectOf(ArtifactPairs(r)));
  }

  lemma ArtifactNames()
    ensures Ascii("role") && Ascii("path") && Ascii("relativePath") && Ascii("blake2b256") && Ascii("state") && Ascii("controlledArtifacts")
    ensures Ascii("recovery-input")
  {}

  lemma Clean5(ms: seq<Pair>)
    requires |ms| == 5 && CleanPair(ms[0]) && CleanPair(ms[1]) && CleanPair(ms[2]) && CleanPair(ms[3]) && CleanPair(ms[4])
    ensures Clean(ms)
  {
    hide CleanPair;
  }

  lemma LiteralClean(key: string, t: string)
    requires Ascii(key) && Ascii(t)
    ensures CleanPair((key, Str("", Quote(t))))
  {
    AsciiIsUtf8(t);
    QuoteUtf8(t);
    hide IsUtf8;
    assert Quote(t) + "" == Quote(t);
  }

  lemma WordClean(key: string, word: string)
    requires Ascii(key) && IsWord(word)
    ensures CleanPair((key, Word("", word)))
  {
    WordIsTidy(word);
    assert Ascii(word);
    AsciiIsUtf8(word);
  }

  lemma HeadNames()
    ensures Ascii("schema") && Ascii("operationId") && Ascii("operation") && Ascii("created") && Ascii("updated") && Ascii("wpm.recovery.v1")
    ensures Ascii("planDigest") && Ascii("status") && Ascii("phase")
  {}

  lemma HeadClean(r: Record)
    requires AllUtf8(r)
    ensures Clean(HeadPairs(r))
  {
    HeadTexts(r);
    hide *;
    HeadNames();
    LiteralClean("schema", "wpm.recovery.v1");
    TextClean("operationId", r.plan.recoveryId);
    TextClean("operation", r.plan.action);
    TextClean("created", r.created);
    TextClean("updated", r.updated);
    TextClean("planDigest", r.planDigest);
    TextClean("status", r.status);
    TextClean("phase", r.phase);
    HeadIs(r);
    SchemaIs(r);
    Clean8(HeadPairs(r));
  }

  lemma Clean8(ms: seq<Pair>)
    requires |ms| == 8 && CleanPair(ms[0]) && CleanPair(ms[1]) && CleanPair(ms[2]) && CleanPair(ms[3])
    requires CleanPair(ms[4]) && CleanPair(ms[5]) && CleanPair(ms[6]) && CleanPair(ms[7])
    ensures Clean(ms)
  {
    hide CleanPair;
  }

  lemma HeadTexts(r: Record)
    requires AllUtf8(r)
    ensures IsUtf8(Safe(r.plan.recoveryId)) && IsUtf8(Safe(r.plan.action)) && IsUtf8(Safe(r.created)) && IsUtf8(Safe(r.updated))
    ensures IsUtf8(Safe(r.planDigest)) && IsUtf8(Safe(r.status)) && IsUtf8(Safe(r.phase))
  {
    hide Safe, IsUtf8, HexText, Relative, StateName;
    var ts := Texts(r);
    assert IsUtf8(Safe(ts[0])) && IsUtf8(Safe(ts[1])) && IsUtf8(Safe(ts[2])) && IsUtf8(Safe(ts[3])) && IsUtf8(Safe(ts[4]))
        && IsUtf8(Safe(ts[5])) && IsUtf8(Safe(ts[6]));
  }

  lemma MiddleTexts(r: Record)
    requires AllUtf8(r)
    ensures IsUtf8(Safe(r.plan.identity.name)) && IsUtf8(Safe(r.plan.identity.arch)) && IsUtf8(Safe(r.plan.source)) && IsUtf8(Safe(r.plan.archive))
    ensures IsUtf8(Safe(r.plan.identity.version)) && IsUtf8(Safe(r.plan.oldVersion)) && IsUtf8(Safe(r.plan.signer))
    ensures IsUtf8(Safe(HexText(r.plan.fingerprint)))
  {
    hide Safe, IsUtf8, HexText, Relative, StateName;
    var ts := Texts(r);
    assert IsUtf8(Safe(ts[7])) && IsUtf8(Safe(ts[8])) && IsUtf8(Safe(ts[9])) && IsUtf8(Safe(ts[10])) && IsUtf8(Safe(ts[15]))
        && IsUtf8(Safe(ts[16])) && IsUtf8(Safe(ts[17])) && IsUtf8(Safe(ts[11]));
  }

  lemma TailTexts(r: Record)
    requires AllUtf8(r)
    ensures IsUtf8(Safe(r.plan.retained)) && IsUtf8(Safe(HexText(r.plan.fingerprint))) && IsUtf8(Safe(Relative(r.plan)))
    ensures IsUtf8(Safe(StateName(r.retainedState))) && IsUtf8(Safe(r.phase))
  {
    hide Safe, IsUtf8, HexText, Relative, StateName;
    var ts := Texts(r);
    assert IsUtf8(Safe(ts[6])) && IsUtf8(Safe(ts[11])) && IsUtf8(Safe(ts[12])) && IsUtf8(Safe(ts[13])) && IsUtf8(Safe(ts[14]));
  }

  lemma ChoiceTexts(r: Record)
    ensures OldVersion(r.plan).Some? ==> OldVersion(r.plan).value == r.plan.identity.version || OldVersion(r.plan).value == r.plan.oldVersion
    ensures NewVersion(r.plan).Some? ==> NewVersion(r.plan).value == r.plan.identity.version
    ensures Signer(r.plan).Some? ==> Signer(r.plan).value == r.plan.signer
    ensures FailedPhase(r).Some? ==> FailedPhase(r).value == r.phase
  {}

  lemma MiddleNames()
    ensures Ascii("source") && Ascii("signer") && Ascii("validation") && Ascii("externalStateMayHaveChanged") && Ascii("validated-before-approval")
  {}

  lemma MiddleClean(r: Record)
    requires AllUtf8(r)
    ensures Clean(MiddlePairs(r))
  {
    hide *;
    MiddleTexts(r);
    ChoiceTexts(r);
    MiddleNames();
    PackageClean(r);
    TextClean("source", r.plan.source);
    MaybeClean("signer", Signer(r.plan));
    LiteralClean("validation", "validated-before-approval");
    InputClean(r);
    WordsAreWords();
    WordClean("externalStateMayHaveChanged", if r.external then "true" else "false");
    MiddleIs(r);
    Clean6(MiddlePairs(r));
  }

  lemma WordsAreWords()
    ensures IsWord("true") && IsWord("false")
  {}

  lemma Clean6(ms: seq<Pair>)
    requires |ms| == 6 && CleanPair(ms[0]) && CleanPair(ms[1]) && CleanPair(ms[2])
    requires CleanPair(ms[3]) && CleanPair(ms[4]) && CleanPair(ms[5])
    ensures Clean(ms)
  {
    hide CleanPair;
  }

  lemma TailNames()
    ensures Ascii("scriptExitCode") && Ascii("retryEligible") && Ascii("safeActions") && Ascii("completedPhases") && Ascii("failedPhase") && Ascii("inspect")
  {}

  lemma TailClean(r: Record)
    requires AllUtf8(r)
    ensures Clean(TailPairs(r))
  {
    PhaseTexts(r);
    hide *;
    TailTexts(r);
    ChoiceTexts(r);
    TailNames();
    ExitClean("scriptExitCode", r.exit);
    WordsAreWords();
    WordClean("retryEligible", "false");
    LiteralClean("safeActions", "inspect");
    CleanMeans("safeActions", Str("", Quote("inspect")));
    InspectIsTidy();
    NoSpaceBefore("inspect");
    SingleClean("safeActions", Str("", Quote("inspect")));
    ArtifactClean(r);
    PhasesClean("completedPhases", r.completed);
    MaybeClean("failedPhase", FailedPhase(r));
    TailIs(r);
    Clean6(TailPairs(r));
  }

  lemma NoSpaceBefore(t: string)
    ensures Str("", Quote(t)).ws == ""
  {}

  lemma CleanMeans(key: string, v: Value)
    requires CleanPair((key, v))
    ensures IsUtf8(Bare(v, ""))
  {}

  lemma PhaseTexts(r: Record)
    requires AllUtf8(r)
    ensures forall k :: 0 <= k < |r.completed| ==> IsUtf8(Safe(r.completed[k]))
  {}

  /** The printed record is UTF-8 without NUL. */
  lemma PrintedIsUtf8(r: Record)
    requires AllUtf8(r)
    ensures IsUtf8(JournalTree(r).Text())
  {
    hide *;
    HeadClean(r);
    MiddleClean(r);
    TailClean(r);
    CleanParts(r);
    EmptyUtf8();
    PairsUtf8(JournalPairs(r), "");
    JournalTidy(r);
    JournalText(r);
    EndUtf8(PairsText(JournalPairs(r), ""));
  }

  lemma EndUtf8(t: string)
    requires IsUtf8(t)
    ensures IsUtf8("{" + (t + "}\n"))
  {
    AsciiIsUtf8("{");
    AsciiIsUtf8("}\n");
    hide IsUtf8;
    JoinUtf8(t, "}\n");
    JoinUtf8("{", t + "}\n");
  }

  lemma CleanParts(r: Record)
    requires Clean(HeadPairs(r)) && Clean(MiddlePairs(r)) && Clean(TailPairs(r))
    ensures Clean(JournalPairs(r))
  {
    hide CleanPair, HeadPairs, MiddlePairs, TailPairs;
    var a, b, c := HeadPairs(r), MiddlePairs(r), TailPairs(r);
    forall i | 0 <= i < |a + b + c| ensures CleanPair((a + b + c)[i]) {
      if i < |a| { assert (a + b + c)[i] == a[i]; }
      else if i < |a| + |b| { assert (a + b + c)[i] == b[i - |a|]; }
      else { assert (a + b + c)[i] == c[i - |a| - |b|]; }
    }
  }

  /** The decoded strings of an array; nothing if something else is in it. */
  function StringsOf(it: Items): Option<seq<string>> {
    if it.End? then Some([])
    else if !it.val.Str? || !IsStringToken(it.val.tok) then None
    else
      var more := StringsOf(it.more);
      if more.None? then None else Some([Decode(it.val.tok)] + more.value)
  }

  lemma {:induction false} AppendSays(it: Items, tok: string)
    requires StringsOf(it).Some? && IsStringToken(tok)
    ensures StringsOf(Append(it, Str("", tok))) == Some(StringsOf(it).value + [Decode(tok)])
    decreases it
  {
    hide IsStringToken, Decode;
    if it.Item? {
      AppendSays(it.more, tok);
      assert [Decode(it.val.tok)] + (StringsOf(it.more).value + [Decode(tok)]) == ([Decode(it.val.tok)] + StringsOf(it.more).value) + [Decode(tok)];
    } else {
      assert [Decode(tok)] + [] == [] + [Decode(tok)];
    }
  }

  lemma {:induction false} PhaseItemsSay(phases: seq<string>)
    requires forall k :: 0 <= k < |phases| ==> Safe(phases[k]) == phases[k]
    ensures StringsOf(PhaseItems(phases)) == Some(phases)
  {
    hide IsStringToken, Decode, Append, Quote, Safe;
    if phases != [] {
      var init, last := phases[..|phases| - 1], phases[|phases| - 1];
      PhaseItemsSay(init);
      QuotedToken(last);
      AppendSays(PhaseItems(init), Quote(last));
      assert init + [last] == phases;
    }
  }

  predicate IsListOf(v: Value, texts: seq<string>) {
    v.Node? && !v.obj && StringsOf(v.items) == Some(texts)
  }

  /** The document lists the completed phases in order. */
  lemma PhasesAreWritten(r: Record) returns (v: Value)
    requires forall k :: 0 <= k < |r.completed| ==> Safe(r.completed[k]) == r.completed[k]
    ensures ValueIs(r, "completedPhases", v) && IsListOf(v, r.completed)
  {
    PhaseItemsSay(r.completed);
    v := ArrayOf(PhaseItems(r.completed));
    hide Printed, ValueOf, PhaseItems, StringsOf, TailPairs;
    TailIs(r);
    TailValue(r, 4);
  }

  /** It names the location of the retained input, which the reader does not hand on. */
  lemma LocationIsWritten(r: Record) returns (ms: seq<Pair>)
    requires Recordable(r) && Untouched(r)
    ensures ValueIs(r, "controlledArtifacts", ArrayOf(Append(End, ObjectOf(ms)))) && WfItems(true, MembersOf(ms))
    ensures TextField(MembersOf(ms), "path", PATH, false) == Some(r.plan.retained)
  {
    hide *;
    ms := ArtifactPairs(r);
    RecordableParts(r);
    TailIs(r);
    TailValue(r, 3);
    UntouchedArtifact(r);
    ArtifactIs(r);
    ArtifactMember(r, 1);
    TextIn(MembersOf(ms), "path", r.plan.retained, PATH, false);
  }

  /** The digest that is read back names the bytes of the recorded one. */
  lemma DigestIsReadBack(r: Record)
    requires Recordable(r)
    ensures var t := BytesOf(Expected(r).input.1);
            |t| == |r.plan.fingerprint| == 32 && forall i :: 0 <= i < 32 ==> t[i] as int == r.plan.fingerprint[i] as int % 256
  {
    HexTextSays(r.plan.fingerprint);
    hide *;
    RecordableParts(r);
    FingerprintIs32(r.plan);
    ExpectedIs(r);
  }

  lemma FingerprintIs32(p: Plan)
    requires InputReady(p)
    ensures |p.fingerprint| == 32
  {}

  /** The round trip over texts: the printed record is a valid UTF-8 document
      without NUL, and the reader finds in it exactly what was recorded. */
  lemma RecordRoundTrip(r: Record)
    requires Recordable(r) && Untouched(r) && AllUtf8(r)
    ensures var text := JournalTree(r).Text();
            && '\0' !in text && Utf8(text) && JournalTree(r).Wf() && Parse(text) == Ok(JournalTree(r), "")
            && RecordOf(JournalTree(r), r.plan.recoveryId) == Some(Expected(r))
  {
    hide *;
    PrintedIsRead(r);
    PrintedIsUtf8(r);
    Utf8IsRfc3629(JournalTree(r).Text());
    ParseIsPrintInverse(JournalTree(r).Text(), JournalTree(r));
  }

  // ----- record_retained_path -----

  function VersionOf(record: RecoveryRecord): string {
    if record.root.operation == "remove" then record.package.oldVersion else record.package.newVersion
  }

  /** `record_retained_path`: whether the recorded location is the canonical one,
      and the path it stands for below the recovery directory. */
  method RetainedPath(record: RecoveryRecord, directory: string) returns (ok: bool, path: Option<string>, known: bool)
    ensures record.inventory.retained.None? ==> ok && path == None && known == record.inventory.known
    ensures record.inventory.retained.Some? && VersionOf(record) == "" ==> ok && path == None && !known
    ensures record.inventory.retained.Some? && VersionOf(record) != "" ==>
              var expected := directory + ("\\" + (record.root.id + "\\input.zip"));
              && ok == (record.inventory.retained.value.0 == record.root.id + "/input.zip" && |record.root.id| + 10 < 256 && |expected| < PATH)
              && (ok ==> path == Some(expected) && known == record.inventory.known)
  {
    path, known := None, record.inventory.known;
    if record.inventory.retained.None? { return true, None, known; }
    if VersionOf(record) == "" { return true, None, false; }
    var relative := record.root.id + "/input.zip";
    if |relative| >= 256 || relative != record.inventory.retained.value.0 { return false, None, known; }
    var full := directory + ("\\" + (record.root.id + "\\input.zip"));
    ok := |full| < PATH;
    if ok { path := Some(full); }
  }

  /** The relative path of a printed record is the canonical one. */
  lemma RetainedIsCanonical(r: Record, directory: string)
    requires Recordable(r) && |directory| + 43 < PATH
    ensures var e := Expected(r);
            && e.inventory.retained.Some? && VersionOf(e) != ""
            && e.inventory.retained.value.0 == e.root.id + "/input.zip" && |e.root.id| + 10 < 256
            && |directory + ("\\" + (e.root.id + "\\input.zip"))| < PATH
  {
    RecordableParts(r);
    VersionNotEmpty(r.plan.identity.version);
    hide Recordable, TimesReady, OriginReady, InputReady, FieldFits, Filterable, ParseVersion, HexText;
  }
}
