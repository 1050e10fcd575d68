/** The recovery record that `journal_write` prints, and that `record_parse`
    reads back.  */
module Journal {
  import opened JsonGrammar
  import opened JsonFields
  import opened JsonText
  import opened Decimal
  import opened Catalog
  import opened Publish
  import opened Records
  import opened Operations
  import Redaction

  // ----- objects as lists of keys and values -----

  type Pair = (string, Value)

  function MembersOf(ms: seq<Pair>): Items {
    if ms == [] then End else Items.Item("", Quote(ms[0].0), "", ms[0].1, "", MembersOf(ms[1..]))
  }

  function KeyLead(key: string): string {
    "\"" + (key + "\":")
  }

  /** The members with `rest` in place of the closing brace. */
  function PairsText(ms: seq<Pair>, rest: string): string {
    if ms == [] then rest
    else KeyLead(ms[0].0) + Bare(ms[0].1, if |ms| == 1 then rest else "," + PairsText(ms[1..], rest))
  }

  function Comma(ms: seq<Pair>): string {
    if ms == [] then "" else ","
  }

  lemma {:induction false} PairsSnoc(ms: seq<Pair>, m: Pair, rest: string)
    ensures PairsText(ms + [m], rest) == PairsText(ms, Comma(ms) + (KeyLead(m.0) + Bare(m.1, rest)))
  {
    hide KeyLead, Bare;
    var last := KeyLead(m.0) + Bare(m.1, rest);
    if ms == [] {
      assert ms + [m] == [m];
      assert "" + last == last;
    } else {
      assert (ms + [m])[1..] == ms[1..] + [m];
      PairsSnoc(ms[1..], m, rest);
      assert |ms| == 1 ==> ms[1..] == [] && PairsText(ms[1..] + [m], rest) == PairsText([], "" + last) && "" + last == last;
    }
  }

  lemma {:induction false} PairsFollowed(ms: seq<Pair>, a: string, b: string)
    ensures PairsText(ms, a) + b == PairsText(ms, a + b)
  {
    hide KeyLead, Bare;
    if ms != [] {
      PairsFollowed(ms[1..], a, b);
      var t := if |ms| == 1 then a else "," + PairsText(ms[1..], a);
      Assoc(",", PairsText(ms[1..], a), b);
      BareFollowed(ms[0].1, t, b);
      Assoc(KeyLead(ms[0].0), Bare(ms[0].1, t), b);
    }
  }

  /** One more member written behind the others. */
  lemma PairWritten(ms: seq<Pair>, key: string, value: Value, lead: string, text: string)
    requires lead == Comma(ms) + KeyLead(key) && text == Bare(value, "")
    ensures (PairsText(ms, "") + lead) + text == PairsText(ms + [(key, value)], "")
  {
    hide Bare, KeyLead, PairsText;
    PairsSnoc(ms, (key, value), "");
    PairsFollowed(ms, "", lead);
    PairsFollowed(ms, lead, text);
    assert "" + lead == lead;
    Assoc(Comma(ms), KeyLead(key), text);
  }

  predicate PlainKey(key: string) {
    |key| < KEY_SIZE && key != "" && forall i :: 0 <= i < |key| ==> ' ' <= key[i] && key[i] != '"' && key[i] != '\\'
  }

  predicate TidyPair(m: Pair) {
    PlainKey(m.0) && WfValue(m.1) && m.1.ws == ""
  }

  predicate Tidy(ms: seq<Pair>) {
    forall i :: 0 <= i < |ms| ==> TidyPair(ms[i])
  }

  lemma {:induction false} MembersWf(ms: seq<Pair>)
    requires Tidy(ms)
    ensures WfItems(true, MembersOf(ms))
  {
    if ms != [] {
      QuotedToken(ms[0].0);
      MembersWf(ms[1..]);
    }
  }

  lemma {:induction false} MembersPrint(ms: seq<Pair>, rest: string)
    requires Tidy(ms)
    ensures Body(true, MembersOf(ms), rest) == PairsText(ms, "}" + rest)
  {
    if ms != [] {
      hide Tidy, PlainKey;
      var m := ms[0];
      TidyFirst(ms);
      MembersPrint(ms[1..], rest);
      var t := if |ms| == 1 then "}" + rest else "," + PairsText(ms[1..], "}" + rest);
      FirstPrints(m, MembersOf(ms[1..]), rest, t);
    }
  }

  lemma TidyFirst(ms: seq<Pair>)
    requires Tidy(ms) && ms != []
    ensures Tidy(ms[1..]) && PlainKey(ms[0].0) && WfValue(ms[0].1) && ms[0].1.ws == "" && (MembersOf(ms[1..]).End? <==> |ms| == 1)
  {}

  lemma FirstPrints(m: Pair, more: Items, rest: string, t: string)
    requires PlainKey(m.0) && m.1.ws == ""
    requires t == if more.End? then "}" + rest else "," + Body(true, more, rest)
    ensures Body(true, Items.Item("", Quote(m.0), "", m.1, "", more), rest) == KeyLead(m.0) + Bare(m.1, t)
  {
    hide Quote, Bare;
    var it := Items.Item("", Quote(m.0), "", m.1, "", more);
    var b := Bare(m.1, t);
    assert Tail(true, it, rest) == "" + t == t;
    assert Print(m.1, t) == "" + b == b;
    KeyToken("", m.0, "" + KeyLead(m.0), b);
    var c := ":" + b;
    assert "" + c == c;
    var k := Quote(m.0) + c;
    assert "" + k == k && "" + KeyLead(m.0) == KeyLead(m.0);
  }

  /** The value of a key that no other member has. */
  lemma {:induction false} Lookup(ms: seq<Pair>, n: nat)
    requires Tidy(ms) && n < |ms| && forall i :: 0 <= i < |ms| && i != n ==> ms[i].0 != ms[n].0
    ensures WfItems(true, MembersOf(ms)) && ValueOf(MembersOf(ms), ms[n].0) == Some(ms[n].1)
  {
    MembersWf(ms);
    LookupFrom(ms, 0, n);
    assert ms[0..] == ms;
  }

  lemma {:induction false} LookupFrom(ms: seq<Pair>, k: nat, n: nat)
    requires Tidy(ms) && k <= |ms| && n < |ms| && WfItems(true, MembersOf(ms[k..]))
    requires forall i :: 0 <= i < |ms| && i != n ==> ms[i].0 != ms[n].0
    ensures Count(MembersOf(ms[k..]), ms[n].0, UNIQUE_KEY) == if k <= n then 1 else 0
    ensures k <= n ==> FindItem(MembersOf(ms[k..]), ms[n].0, UNIQUE_KEY).Item? && FindItem(MembersOf(ms[k..]), ms[n].0, UNIQUE_KEY).val == ms[n].1
    decreases |ms| - k
  {
    if k < |ms| {
      var t := ms[k..];
      assert t[0] == ms[k] && t[1..] == ms[k + 1..];
      QuotedToken(ms[k].0);
      hide Quote;
      LookupFrom(ms, k + 1, n);
      assert PlainKey(ms[k].0) && '\0' !in ms[k].0;
      assert KeyIn(Quote(ms[k].0), UNIQUE_KEY) == ms[k].0;
    }
  }

  // ----- the record's values -----

  function Safe(t: string): string {
    Redaction.Redact(t)
  }

  function TextValue(t: string): Value {
    Str("", Quote(Safe(t)))
  }

  function MaybeValue(t: Option<string>): Value {
    if t.Some? then TextValue(t.value) else Word("", "null")
  }

  /** What `wpm_json_encode_string` can encode. */
  predicate Encodable(t: string) {
    |t| <= SIZE_LIMIT && Utf8(Safe(t))
  }

  predicate MaybeEncodable(t: Option<string>) {
    t.Some? ==> Encodable(t.value)
  }

  function ObjectOf(ms: seq<Pair>): Value {
    Node("", true, "", MembersOf(ms))
  }

  function ArrayOf(items: Items): Value {
    Node("", false, "", items)
  }

  function PhaseItems(phases: seq<string>): Items {
    if phases == [] then End else Append(PhaseItems(phases[..|phases| - 1]), TextValue(phases[|phases| - 1]))
  }

  function ExitValue(exit: Option<nat>): Value {
    if exit.Some? then Num("", Number(false, DecimalText(exit.value), "", NoExponent)) else Word("", "null")
  }

  function HexText(bytes: string): string {
    if bytes == "" then "" else [LowHex(bytes[0] as int % 256 / 16), LowHex(bytes[0] as int % 16)] + HexText(bytes[1..])
  }

  /** What a text of hexadecimal digits says: two digits a byte, the high one first. */
  function BytesOf(hex: string): string {
    if |hex| < 2 || HexDigit(hex[0]) < 0 || HexDigit(hex[1]) < 0 then ""
    else [(HexDigit(hex[0]) * 16 + HexDigit(hex[1])) as char] + BytesOf(hex[2..])
  }

  lemma HexPair(b: int)
    requires 0 <= b
    ensures var h, l := LowHex(b % 256 / 16), LowHex(b % 16); HexDigit(h) >= 0 && HexDigit(l) >= 0 && HexDigit(h) * 16 + HexDigit(l) == b % 256
  {
    assert b % 256 / 16 * 16 + b % 256 % 16 == b % 256 && b % 256 % 16 == b % 16;
  }

  /** The printed digits name every byte. */
  lemma {:induction false} HexTextSays(bytes: string)
    ensures var t := BytesOf(HexText(bytes)); |t| == |bytes| && forall i :: 0 <= i < |bytes| ==> t[i] as int == bytes[i] as int % 256
    ensures |HexText(bytes)| == 2 * |bytes|
    ensures forall i :: 0 <= i < |bytes| ==>
              HexDigit(HexText(bytes)[2 * i]) * 16 + HexDigit(HexText(bytes)[2 * i + 1]) == bytes[i] as int % 256
  {
    hide LowHex, HexDigit;
    if bytes != "" {
      var s, rest := HexText(bytes), HexText(bytes[1..]);
      HexPair(bytes[0] as int);
      HexTextSays(bytes[1..]);
      assert s[2..] == rest;
      forall i | 0 <= i < |bytes| ensures HexDigit(s[2 * i]) * 16 + HexDigit(s[2 * i + 1]) == bytes[i] as int % 256 {
        if i > 0 { assert s[2 * i] == rest[2 * (i - 1)] && s[2 * i + 1] == rest[2 * (i - 1) + 1]; }
      }
    }
  }

  function OldVersion(p: Plan): Option<string> {
    if p.action == "remove" then Some(p.identity.version) else if p.oldVersion == "none" then None else Some(p.oldVersion)
  }

  function NewVersion(p: Plan): Option<string> {
    if p.action == "remove" then None else Some(p.identity.version)
  }

  function Signer(p: Plan): Option<string> {
    if p.signer != "" then Some(p.signer) else None
  }

  function StateName(state: nat): string {
    if state == 2 then "retained" else if state == 1 then "incomplete" else "planned"
  }

  function Relative(p: Plan): string {
    p.recoveryId + "/input.zip"
  }

  function FailedPhase(r: Record): Option<string> {
    if r.status == "failed" then Some(r.phase) else None
  }

  function PackagePairs(p: Plan): seq<Pair> {
    [("name", TextValue(p.identity.name)), ("arch", TextValue(p.identity.arch)),
     ("oldVersion", MaybeValue(OldVersion(p))), ("newVersion", MaybeValue(NewVersion(p)))]
  }

  function InputPairs(p: Plan): seq<Pair> {
    [("path", TextValue(p.archive)), ("blake2b256", TextValue(HexText(p.fingerprint)))]
  }

  function ArtifactPairs(r: Record): seq<Pair> {
    [("role", Str("", Quote("recovery-input"))), ("path", TextValue(r.plan.retained)), ("relativePath", TextValue(Relative(r.plan))),
     ("blake2b256", TextValue(HexText(r.plan.fingerprint))), ("state", TextValue(StateName(r.retainedState)))]
  }

  function HeadPairs(r: Record): seq<Pair> {
    [("schema", Str("", Quote("wpm.recovery.v1"))), ("operationId", TextValue(r.plan.recoveryId)),
     ("operation", TextValue(r.plan.action)), ("created", TextValue(r.created)), ("updated", TextValue(r.updated)),
     ("planDigest", TextValue(r.planDigest)), ("status", TextValue(r.status)), ("phase", TextValue(r.phase))]
  }

  function MiddlePairs(r: Record): seq<Pair> {
    [("package", ObjectOf(PackagePairs(r.plan))), ("source", TextValue(r.plan.source)), ("signer", MaybeValue(Signer(r.plan))),
     ("validation", Str("", Quote("validated-before-approval"))), ("input", ObjectOf(InputPairs(r.plan))),
     ("externalStateMayHaveChanged", Word("", if r.external then "true" else "false"))]
  }

  function TailPairs(r: Record): seq<Pair> {
    [("scriptExitCode", ExitValue(r.exit)), ("retryEligible", Word("", "false")),
     ("safeActions", ArrayOf(Append(End, Str("", Quote("inspect"))))),
     ("controlledArtifacts", ArrayOf(Append(End, ObjectOf(ArtifactPairs(r))))),
     ("completedPhases", ArrayOf(PhaseItems(r.completed))), ("failedPhase", MaybeValue(FailedPhase(r)))]
  }

  function JournalPairs(r: Record): seq<Pair> {
    HeadPairs(r) + MiddlePairs(r) + TailPairs(r)
  }

  /** The printed record as a document. */
  function JournalTree(r: Record): Document {
    Document(false, ObjectOf(JournalPairs(r)), "\n")
  }

  // ----- the values are well formed and tidy -----

  lemma TextIsTidy(t: string)
    ensures WfValue(TextValue(t)) && TextValue(t).ws == "" && Bare(TextValue(t), "") == Quote(Safe(t))
  {
    QuotedToken(Safe(t));
    hide Quote, Redaction.Redact;
    assert Quote(Safe(t)) + "" == Quote(Safe(t));
  }

  lemma MaybeIsTidy(t: Option<string>)
    ensures WfValue(MaybeValue(t)) && MaybeValue(t).ws == ""
    ensures Bare(MaybeValue(t), "") == if t.Some? then Quote(Safe(t.value)) else "null"
  {
    if t.Some? { TextIsTidy(t.value); } else { assert "null" + "" == "null"; }
  }

  /** A literal between quotation marks. */
  function Quoted(t: string): string {
    "\"" + (t + "\"")
  }

  lemma LiteralIsTidy(t: string)
    requires forall i :: 0 <= i < |t| ==> t[i] >= ' ' && t[i] != '"' && t[i] != '\\'
    ensures WfValue(Str("", Quote(t))) && Bare(Str("", Quote(t)), "") == Quoted(t)
  {
    QuotedToken(t);
    QuotePlain(t, |t|);
    assert Quote(t) + "" == Quote(t);
  }

  lemma ObjectBare(ms: seq<Pair>, rest: string)
    requires Tidy(ms)
    ensures Bare(ObjectOf(ms), rest) == "{" + PairsText(ms, "}" + rest)
  {
    hide Tidy, PairsText;
    MembersPrint(ms, rest);
    var b := Body(true, MembersOf(ms), rest);
    assert "" + b == b;
  }

  lemma ObjectIsTidy(ms: seq<Pair>)
    requires Tidy(ms)
    ensures WfValue(ObjectOf(ms)) && ObjectOf(ms).ws == "" && Bare(ObjectOf(ms), "") == "{" + (PairsText(ms, "") + "}")
  {
    ObjectBare(ms, "");
    MembersWf(ms);
    hide Tidy, PairsText, Bare, MembersOf, WfItems;
    PairsFollowed(ms, "", "}");
    assert "}" + "" == "}" && "" + "}" == "}";
  }

  lemma {:induction false} PhasesWf(phases: seq<string>)
    ensures WfItems(false, PhaseItems(phases))
  {
    if phases != [] {
      PhasesWf(phases[..|phases| - 1]);
      TextIsTidy(phases[|phases| - 1]);
      AppendWf(PhaseItems(phases[..|phases| - 1]), TextValue(phases[|phases| - 1]));
    }
  }

  lemma {:induction false} AppendWf(it: Items, v: Value)
    requires WfItems(false, it) && WfValue(v)
    ensures WfItems(false, Append(it, v))
  {
    hide WfValue;
    if it.Item? { AppendWf(it.more, v); }
  }

  lemma ExitIsTidy(exit: Option<nat>)
    ensures WfValue(ExitValue(exit)) && ExitValue(exit).ws == ""
    ensures Bare(ExitValue(exit), "") == if exit.Some? then DecimalText(exit.value) else "null"
  {
    if exit.Some? {
      DecimalValue(exit.value);
      DigitsIff(DecimalText(exit.value));
      hide DecimalText, Digits;
      assert DecimalText(exit.value) + "" == DecimalText(exit.value);
      if DecimalText(exit.value)[0] == '0' { assert DecimalText(exit.value) == "0"; }
    } else {
      assert "null" + "" == "null";
    }
  }

  // ----- journal_write -----

  /** A member whose value is an encoded string or `null`. */
  method Field(out0: string, good0: bool, first: bool, key: string, t: Option<string>, ghost ms: seq<Pair>) returns (out: string, good: bool)
    requires first == (ms == []) && (good0 ==> out0 == PairsText(ms, ""))
    ensures good == (good0 && MaybeEncodable(t))
    ensures good ==> out == PairsText(ms + [(key, MaybeValue(t))], "")
  {
    hide PairsText, Redaction.Redact, Quote, Utf8;
    var encoded := EncodeString(t);
    good := good0 && encoded.Some?;
    out := out0;
    if good {
      MaybeIsTidy(t);
      PairWritten(ms, key, MaybeValue(t), Lead(first, key), encoded.value);
      out := out0 + Lead(first, key) + encoded.value;
    }
  }

  function Lead(first: bool, key: string): string {
    (if first then "" else ",") + KeyLead(key)
  }

  /** A member whose value is written as it is. */
  method Plain(out0: string, good: bool, first: bool, key: string, text: string, ghost ms: seq<Pair>, ghost value: Value) returns (out: string)
    requires first == (ms == []) && (good ==> out0 == PairsText(ms, "") && text == Bare(value, ""))
    ensures good ==> out == PairsText(ms + [(key, value)], "")
  {
    hide PairsText;
    if good { PairWritten(ms, key, value, Lead(first, key), text); }
    out := out0 + Lead(first, key) + text;
  }

  predicate PackageEncodable(p: Plan) {
    Encodable(p.identity.name) && Encodable(p.identity.arch) && MaybeEncodable(OldVersion(p)) && MaybeEncodable(NewVersion(p))
  }

  lemma PackageKeys()
    ensures PlainKey("name") && PlainKey("arch") && PlainKey("oldVersion") && PlainKey("newVersion")
  {}

  lemma TidyText(key: string, t: string)
    requires PlainKey(key)
    ensures TidyPair((key, TextValue(t)))
  {
    TextIsTidy(t);
  }

  lemma TidyMaybe(key: string, t: Option<string>)
    requires PlainKey(key)
    ensures TidyPair((key, MaybeValue(t)))
  {
    MaybeIsTidy(t);
  }

  lemma PackageTidy(p: Plan)
    ensures Tidy(PackagePairs(p))
  {
    PackageKeys();
    hide PlainKey, TidyPair, TextValue, MaybeValue, OldVersion, NewVersion;
    TidyText("name", p.identity.name);
    TidyText("arch", p.identity.arch);
    TidyMaybe("oldVersion", OldVersion(p));
    TidyMaybe("newVersion", NewVersion(p));
  }

  method PrintPackage(p: Plan) returns (out: string, good: bool)
    ensures good == PackageEncodable(p)
    ensures good ==> out == Bare(ObjectOf(PackagePairs(p)), "")
  {
    hide PairsText, Encodable, Tidy, OldVersion, NewVersion, ObjectOf, TextValue, Lead, WfValue;
    ghost var ms: seq<Pair> := [];
    out, good := Field(PairsStart(), true, true, "name", Some(p.identity.name), ms);
    ms := ms + [("name", TextValue(p.identity.name))];
    out, good := Field(out, good, false, "arch", Some(p.identity.arch), ms);
    ms := ms + [("arch", TextValue(p.identity.arch))];
    out, good := Field(out, good, false, "oldVersion", OldVersion(p), ms);
    ms := ms + [("oldVersion", MaybeValue(OldVersion(p)))];
    out, good := Field(out, good, false, "newVersion", NewVersion(p), ms);
    ms := ms + [("newVersion", MaybeValue(NewVersion(p)))];
    assert ms == PackagePairs(p);
    PackageTidy(p);
    ObjectIsTidy(PackagePairs(p));
    out := "{" + (out + "}");
  }

  function PairsStart(): (s: string)
    ensures s == PairsText([], "")
  {
    ""
  }

  predicate InputEncodable(p: Plan) {
    Encodable(p.archive) && Encodable(HexText(p.fingerprint))
  }

  lemma InputKeys()
    ensures PlainKey("path") && PlainKey("blake2b256")
  {}

  lemma InputTidy(p: Plan)
    ensures Tidy(InputPairs(p))
  {
    InputKeys();
    hide PlainKey, TidyPair, TextValue, HexText;
    TidyText("path", p.archive);
    TidyText("blake2b256", HexText(p.fingerprint));
  }

  method PrintInput(p: Plan) returns (out: string, good: bool)
    ensures good == InputEncodable(p)
    ensures good ==> out == Bare(ObjectOf(InputPairs(p)), "")
  {
    hide PairsText, Encodable, Tidy, ObjectOf, TextValue, Lead, WfValue, HexText;
    ghost var ms: seq<Pair> := [];
    out, good := Field(PairsStart(), true, true, "path", Some(p.archive), ms);
    ms := ms + [("path", TextValue(p.archive))];
    out, good := Field(out, good, false, "blake2b256", Some(HexText(p.fingerprint)), ms);
    ms := ms + [("blake2b256", TextValue(HexText(p.fingerprint)))];
    assert ms == InputPairs(p);
    InputTidy(p);
    ObjectIsTidy(InputPairs(p));
    out := "{" + (out + "}");
  }

  predicate ArtifactEncodable(r: Record) {
    && Encodable(r.plan.retained) && Encodable(Relative(r.plan)) && Encodable(HexText(r.plan.fingerprint))
    && Encodable(StateName(r.retainedState))
  }

  lemma ArtifactKeys()
    ensures PlainKey("role") && PlainKey("path") && PlainKey("relativePath") && PlainKey("blake2b256") && PlainKey("state")
  {}

  lemma TidyLiteral(key: string, t: string)
    requires PlainKey(key)
    requires forall i :: 0 <= i < |t| ==> t[i] >= ' ' && t[i] != '"' && t[i] != '\\'
    ensures TidyPair((key, Str("", Quote(t)))) && Bare(Str("", Quote(t)), "") == Quoted(t)
  {
    LiteralIsTidy(t);
  }

  lemma RoleIsTidy()
    ensures TidyPair(("role", Str("", Quote("recovery-input")))) && Bare(Str("", Quote("recovery-input")), "") == Quoted("recovery-input")
  {
    ArtifactKeys();
    hide Quote, Quoted, Bare, TidyPair, PlainKey;
    TidyLiteral("role", "recovery-input");
  }

  lemma ArtifactTidy(r: Record)
    ensures Tidy(ArtifactPairs(r))
  {
    ArtifactKeys();
    RoleIsTidy();
    hide PlainKey, TidyPair, TextValue, HexText, Relative, StateName, Quote;
    TidyText("path", r.plan.retained);
    TidyText("relativePath", Relative(r.plan));
    TidyText("blake2b256", HexText(r.plan.fingerprint));
    TidyText("state", StateName(r.retainedState));
  }

  method PrintArtifact(r: Record) returns (out: string, good: bool)
    ensures good == ArtifactEncodable(r)
    ensures good ==> out == Bare(ObjectOf(ArtifactPairs(r)), "")
  {
    hide PairsText, Encodable, Tidy, ObjectOf, TextValue, Lead, WfValue, HexText, Relative, StateName, Quote;
    ghost var ms: seq<Pair> := [];
    RoleIsTidy();
    out := Plain(PairsStart(), true, true, "role", Quoted("recovery-input"), ms, Str("", Quote("recovery-input")));
    ms := ms + [("role", Str("", Quote("recovery-input")))];
    out, good := Field(out, true, false, "path", Some(r.plan.retained), ms);
    ms := ms + [("path", TextValue(r.plan.retained))];
    out, good := Field(out, good, false, "relativePath", Some(Relative(r.plan)), ms);
    ms := ms + [("relativePath", TextValue(Relative(r.plan)))];
    out, good := Field(out, good, false, "blake2b256", Some(HexText(r.plan.fingerprint)), ms);
    ms := ms + [("blake2b256", TextValue(HexText(r.plan.fingerprint)))];
    out, good := Field(out, good, false, "state", Some(StateName(r.retainedState)), ms);
    ms := ms + [("state", TextValue(StateName(r.retainedState)))];
    assert ms == ArtifactPairs(r);
    ArtifactTidy(r);
    ObjectIsTidy(ArtifactPairs(r));
    out := "{" + (out + "}");
  }

  // ----- the lists -----

  lemma ArrayIsTidy(items: Items)
    requires WfItems(false, items)
    ensures WfValue(ArrayOf(items)) && ArrayOf(items).ws == ""
    ensures Bare(ArrayOf(items), "") == "[" + (Elements(items, "") + "]")
  {
    BodyElements(items, "");
    ElementsFollowed(items, "", "]");
    var b := Body(false, items, "");
    assert "" + b == b && [']'] + "" == "]" && "" + "]" == "]";
  }

  lemma SingleIsTidy(v: Value)
    requires WfValue(v) && v.ws == ""
    ensures WfValue(ArrayOf(Append(End, v))) && ArrayOf(Append(End, v)).ws == ""
    ensures Bare(ArrayOf(Append(End, v)), "") == "[" + (Bare(v, "") + "]")
  {
    hide Bare;
    AppendWf(End, v);
    ArrayIsTidy(Append(End, v));
    AppendPrints(End, v, "");
    assert "" + Bare(v, "") == Bare(v, "");
  }

  lemma PhaseNext(phases: seq<string>, i: nat)
    requires i < |phases|
    ensures Elements(PhaseItems(phases[..i + 1]), "") ==
            Elements(PhaseItems(phases[..i]), "") + ((if i == 0 then "" else ",") + Quote(Safe(phases[i])))
  {
    hide Print, Quote, Redaction.Redact, Append, Elements;
    var p := phases[..i + 1];
    assert p[..|p| - 1] == phases[..i];
    var items, v := PhaseItems(phases[..i]), TextValue(phases[i]);
    TextIsTidy(phases[i]);
    TextPrints(phases[i]);
    AppendPrints(items, v, "");
    PhasesEmpty(phases[..i]);
    var t := if i == 0 then Print(v, "") else [','] + Print(v, "");
    ElementsFollowed(items, "", t);
    assert "" + t == t && "" + Print(v, "") == Print(v, "");
  }

  lemma TextPrints(t: string)
    ensures Print(TextValue(t), "") == Quote(Safe(t))
  {
    TextIsTidy(t);
    hide Quote, Redaction.Redact;
    assert "" + Quote(Safe(t)) == Quote(Safe(t));
  }

  lemma PhasesEmpty(phases: seq<string>)
    ensures PhaseItems(phases).End? <==> phases == []
  {
    if phases != [] { AppendedIsItem(PhaseItems(phases[..|phases| - 1]), TextValue(phases[|phases| - 1])); }
  }

  lemma AppendedIsItem(it: Items, v: Value)
    ensures Append(it, v).Item?
  {}

  predicate PhasesEncodable(phases: seq<string>) {
    forall i :: 0 <= i < |phases| ==> Encodable(phases[i])
  }

  method PrintPhases(phases: seq<string>) returns (out: string, good: bool)
    ensures good == PhasesEncodable(phases)
    ensures good ==> out == Bare(ArrayOf(PhaseItems(phases)), "")
  {
    hide Elements, PhaseItems, Utf8, Redaction.Redact, Quote, ArrayOf, Bare;
    out, good := "", true;
    PhasesNone();
    assert phases[..0] == [];
    for i := 0 to |phases|
      invariant good == forall k :: 0 <= k < i ==> Encodable(phases[k])
      invariant good ==> out == Elements(PhaseItems(phases[..i]), "")
    {
      var encoded := EncodeString(Some(phases[i]));
      good := good && encoded.Some?;
      if good {
        PhaseNext(phases, i);
        out := out + ((if i == 0 then "" else ",") + encoded.value);
      }
    }
    assert phases[..|phases|] == phases;
    PhasesWf(phases);
    ArrayIsTidy(PhaseItems(phases));
    out := "[" + (out + "]");
  }

  lemma PhasesNone()
    ensures Elements(PhaseItems([]), "") == ""
  {}

  // ----- the record -----

  predicate HeadEncodable(r: Record) {
    && Encodable(r.plan.recoveryId) && Encodable(r.plan.action) && Encodable(r.created) && Encodable(r.updated)
    && Encodable(r.planDigest) && Encodable(r.status) && Encodable(r.phase)
  }

  predicate MiddleEncodable(r: Record) {
    PackageEncodable(r.plan) && Encodable(r.plan.source) && MaybeEncodable(Signer(r.plan)) && InputEncodable(r.plan)
  }

  predicate TailEncodable(r: Record) {
    ArtifactEncodable(r) && PhasesEncodable(r.completed) && MaybeEncodable(FailedPhase(r))
  }

  lemma HeadKeys()
    ensures PlainKey("schema") && PlainKey("operationId") && PlainKey("operation") && PlainKey("created")
  {}

  lemma HeadKeys2()
    ensures PlainKey("updated") && PlainKey("planDigest") && PlainKey("status") && PlainKey("phase")
  {}

  lemma MiddleKeys()
    ensures PlainKey("package") && PlainKey("source") && PlainKey("signer")
  {}

  lemma MiddleKeys2()
    ensures PlainKey("validation") && PlainKey("input") && PlainKey("externalStateMayHaveChanged")
  {}

  lemma TailKeys()
    ensures PlainKey("scriptExitCode") && PlainKey("retryEligible") && PlainKey("safeActions")
  {}

  lemma TailKeys2()
    ensures PlainKey("controlledArtifacts") && PlainKey("completedPhases") && PlainKey("failedPhase")
  {}

  lemma SchemaIsTidy()
    ensures TidyPair(("schema", Str("", Quote("wpm.recovery.v1")))) && Bare(Str("", Quote("wpm.recovery.v1")), "") == Quoted("wpm.recovery.v1")
  {
    HeadKeys();
    hide Quote, Quoted, Bare, TidyPair, PlainKey;
    TidyLiteral("schema", "wpm.recovery.v1");
  }

  lemma ValidationIsTidy()
    ensures TidyPair(("validation", Str("", Quote("validated-before-approval"))))
    ensures Bare(Str("", Quote("validated-before-approval")), "") == Quoted("validated-before-approval")
  {
    MiddleKeys2();
    hide Quote, Quoted, Bare, TidyPair, PlainKey;
    TidyLiteral("validation", "validated-before-approval");
  }

  lemma InspectIsTidy()
    ensures WfValue(Str("", Quote("inspect"))) && Bare(Str("", Quote("inspect")), "") == Quoted("inspect")
  {
    hide Quote, Quoted, Bare, WfValue;
    LiteralIsTidy("inspect");
  }

  lemma TidyValue(key: string, v: Value)
    requires PlainKey(key) && WfValue(v) && v.ws == ""
    ensures TidyPair((key, v))
  {}

  lemma WordIsTidy(word: string)
    requires IsWord(word)
    ensures WfValue(Word("", word)) && Word("", word).ws == "" && Bare(Word("", word), "") == word
  {
    assert word + "" == word;
  }

  lemma HeadTidy(r: Record)
    ensures Tidy(HeadPairs(r))
  {
    HeadKeys();
    HeadKeys2();
    SchemaIsTidy();
    hide PlainKey, TidyPair, TextValue, Quote;
    TidyText("operationId", r.plan.recoveryId);
    TidyText("operation", r.plan.action);
    TidyText("created", r.created);
    TidyText("updated", r.updated);
    TidyText("planDigest", r.planDigest);
    TidyText("status", r.status);
    TidyText("phase", r.phase);
  }

  lemma MiddleTidy(r: Record)
    ensures Tidy(MiddlePairs(r))
  {
    MiddleKeys();
    MiddleKeys2();
    ValidationIsTidy();
    PackageTidy(r.plan);
    InputTidy(r.plan);
    hide PlainKey, TidyPair, TextValue, Quote, ObjectOf, PackagePairs, InputPairs, MaybeValue, Signer, WfValue, Tidy;
    ObjectIsTidy(PackagePairs(r.plan));
    ObjectIsTidy(InputPairs(r.plan));
    TidyValue("package", ObjectOf(PackagePairs(r.plan)));
    TidyText("source", r.plan.source);
    TidyMaybe("signer", Signer(r.plan));
    TidyValue("input", ObjectOf(InputPairs(r.plan)));
    var word := if r.external then "true" else "false";
    WordIsTidy(word);
    TidyValue("externalStateMayHaveChanged", Word("", word));
    Tidy6(MiddlePairs(r));
  }

  lemma Tidy6(ms: seq<Pair>)
    requires |ms| == 6 && TidyPair(ms[0]) && TidyPair(ms[1]) && TidyPair(ms[2]) && TidyPair(ms[3]) && TidyPair(ms[4]) && TidyPair(ms[5])
    ensures Tidy(ms)
  {
    hide TidyPair;
  }

  lemma TailTidy(r: Record)
    ensures Tidy(TailPairs(r))
  {
    TailKeys();
    TailKeys2();
    InspectIsTidy();
    ArtifactTidy(r);
    hide PlainKey, TidyPair, TextValue, Quote, ObjectOf, ArtifactPairs, MaybeValue, FailedPhase, WfValue, Tidy, ArrayOf, Append, PhaseItems, ExitValue;
    ExitIsTidy(r.exit);
    TidyValue("scriptExitCode", ExitValue(r.exit));
    WordIsTidy("false");
    TidyValue("retryEligible", Word("", "false"));
    SingleIsTidy(Str("", Quote("inspect")));
    TidyValue("safeActions", ArrayOf(Append(End, Str("", Quote("inspect")))));
    ObjectIsTidy(ArtifactPairs(r));
    SingleIsTidy(ObjectOf(ArtifactPairs(r)));
    TidyValue("controlledArtifacts", ArrayOf(Append(End, ObjectOf(ArtifactPairs(r)))));
    PhasesWf(r.completed);
    ArrayIsTidy(PhaseItems(r.completed));
    TidyValue("completedPhases", ArrayOf(PhaseItems(r.completed)));
    TidyMaybe("failedPhase", FailedPhase(r));
    Tidy6(TailPairs(r));
  }

  lemma JournalTidy(r: Record)
    ensures Tidy(JournalPairs(r))
  {
    HeadTidy(r);
    MiddleTidy(r);
    TailTidy(r);
    hide TidyPair, HeadPairs, MiddlePairs, TailPairs;
    var a, b, c := HeadPairs(r), MiddlePairs(r), TailPairs(r);
    forall i | 0 <= i < |a + b + c| ensures TidyPair((a + b + c)[i]) {
      if i < |a| { assert (a + b + c)[i] == a[i]; }
      else if i < |a| + |b| { assert (a + b + c)[i] == b[i - |a|]; }
      else { assert (a + b + c)[i] == c[i - |a| - |b|]; }
    }
  }

  method PrintHead(r: Record) returns (out: string, good: bool)
    ensures good == HeadEncodable(r)
    ensures good ==> out == PairsText(HeadPairs(r), "")
  {
    hide PairsText, Encodable, TextValue, Lead, Quote, Quoted, TidyPair;
    ghost var ms: seq<Pair> := [];
    SchemaIsTidy();
    out := Plain(PairsStart(), true, true, "schema", Quoted("wpm.recovery.v1"), ms, Str("", Quote("wpm.recovery.v1")));
    ms := ms + [("schema", Str("", Quote("wpm.recovery.v1")))];
    out, good := Field(out, true, false, "operationId", Some(r.plan.recoveryId), ms);
    ms := ms + [("operationId", TextValue(r.plan.recoveryId))];
    out, good := Field(out, good, false, "operation", Some(r.plan.action), ms);
    ms := ms + [("operation", TextValue(r.plan.action))];
    out, good := PrintState(r, out, good, ms);
    assert ms + StatePairs(r) == HeadPairs(r);
  }

  function StatePairs(r: Record): seq<Pair> {
    [("created", TextValue(r.created)), ("updated", TextValue(r.updated)),
     ("planDigest", TextValue(r.planDigest)), ("status", TextValue(r.status)), ("phase", TextValue(r.phase))]
  }

  method PrintState(r: Record, out0: string, good0: bool, ghost before: seq<Pair>) returns (out: string, good: bool)
    requires before != [] && (good0 ==> out0 == PairsText(before, ""))
    ensures good == (good0 && Encodable(r.created) && Encodable(r.updated) && Encodable(r.planDigest) && Encodable(r.status) && Encodable(r.phase))
    ensures good ==> out == PairsText(before + StatePairs(r), "")
  {
    hide PairsText, Encodable, TextValue, Lead;
    ghost var ms := before;
    out, good := Field(out0, good0, false, "created", Some(r.created), ms);
    ms := ms + [("created", TextValue(r.created))];
    out, good := Field(out, good, false, "updated", Some(r.updated), ms);
    ms := ms + [("updated", TextValue(r.updated))];
    out, good := Field(out, good, false, "planDigest", Some(r.planDigest), ms);
    ms := ms + [("planDigest", TextValue(r.planDigest))];
    out, good := Field(out, good, false, "status", Some(r.status), ms);
    ms := ms + [("status", TextValue(r.status))];
    out, good := Field(out, good, false, "phase", Some(r.phase), ms);
    ms := ms + [("phase", TextValue(r.phase))];
    assert ms == before + StatePairs(r);
  }

  method PrintMiddle(r: Record, out0: string, good0: bool, ghost before: seq<Pair>) returns (out: string, good: bool)
    requires before != [] && (good0 ==> out0 == PairsText(before, ""))
    ensures good == (good0 && MiddleEncodable(r))
    ensures good ==> out == PairsText(before + MiddlePairs(r), "")
  {
    hide PairsText, Encodable, MaybeEncodable, TextValue, Quote, PackageEncodable, InputEncodable, ObjectOf, PackagePairs, InputPairs, Signer, TidyPair;
    ghost var ms := before;
    out, good := PrintOrigin(r, out0, good0, ms);
    ms := ms + OriginPairs(r);
    ValidationIsTidy();
    out := Plain(out, good, false, "validation", Quoted("validated-before-approval"), ms, Str("", Quote("validated-before-approval")));
    ms := ms + [("validation", Str("", Quote("validated-before-approval")))];
    out, good := PrintEffects(r, out, good, ms);
    assert ms + EffectPairs(r) == before + MiddlePairs(r);
  }

  function OriginPairs(r: Record): seq<Pair> {
    [("package", ObjectOf(PackagePairs(r.plan))), ("source", TextValue(r.plan.source)), ("signer", MaybeValue(Signer(r.plan)))]
  }

  method PrintOrigin(r: Record, out0: string, good0: bool, ghost before: seq<Pair>) returns (out: string, good: bool)
    requires before != [] && (good0 ==> out0 == PairsText(before, ""))
    ensures good == (good0 && PackageEncodable(r.plan) && Encodable(r.plan.source) && MaybeEncodable(Signer(r.plan)))
    ensures good ==> out == PairsText(before + OriginPairs(r), "")
  {
    hide PairsText, Encodable, TextValue, Lead, PackageEncodable, ObjectOf, PackagePairs, Signer, Bare;
    ghost var ms := before;
    var text, ok := PrintPackage(r.plan);
    good := good0 && ok;
    out := Plain(out0, good, false, "package", text, ms, ObjectOf(PackagePairs(r.plan)));
    ms := ms + [("package", ObjectOf(PackagePairs(r.plan)))];
    out, good := Field(out, good, false, "source", Some(r.plan.source), ms);
    ms := ms + [("source", TextValue(r.plan.source))];
    out, good := Field(out, good, false, "signer", Signer(r.plan), ms);
    ms := ms + [("signer", MaybeValue(Signer(r.plan)))];
    assert ms == before + OriginPairs(r);
  }

  function EffectPairs(r: Record): seq<Pair> {
    [("input", ObjectOf(InputPairs(r.plan))), ("externalStateMayHaveChanged", Word("", if r.external then "true" else "false"))]
  }

  method PrintEffects(r: Record, out0: string, good0: bool, ghost before: seq<Pair>) returns (out: string, good: bool)
    requires before != [] && (good0 ==> out0 == PairsText(before, ""))
    ensures good == (good0 && InputEncodable(r.plan))
    ensures good ==> out == PairsText(before + EffectPairs(r), "")
  {
    hide PairsText, Lead, InputEncodable, ObjectOf, InputPairs, Bare;
    ghost var ms := before;
    var text, ok := PrintInput(r.plan);
    good := good0 && ok;
    out := Plain(out0, good, false, "input", text, ms, ObjectOf(InputPairs(r.plan)));
    ms := ms + [("input", ObjectOf(InputPairs(r.plan)))];
    var word := if r.external then "true" else "false";
    WordIsTidy(word);
    out := Plain(out, good, false, "externalStateMayHaveChanged", word, ms, Word("", word));
    ms := ms + [("externalStateMayHaveChanged", Word("", word))];
    assert ms == before + EffectPairs(r);
  }

  method PrintTail(r: Record, out0: string, good0: bool, ghost before: seq<Pair>) returns (out: string, good: bool)
    requires before != [] && (good0 ==> out0 == PairsText(before, ""))
    ensures good == (good0 && TailEncodable(r))
    ensures good ==> out == PairsText(before + TailPairs(r), "")
  {
    hide PairsText, MaybeEncodable, ArtifactEncodable, PhasesEncodable, FailedPhase, MaybeValue, PhaseItems, ExitValue, ArrayOf, Append, ObjectOf, ArtifactPairs, Quote;
    ghost var ms := before;
    out := PrintFixed(r, out0, good0, ms);
    ms := ms + FixedPairs(r);
    out, good := PrintLists(r, out, good0, ms);
    ms := ms + ListPairs(r);
    out, good := Field(out, good, false, "failedPhase", FailedPhase(r), ms);
    ms := ms + [("failedPhase", MaybeValue(FailedPhase(r)))];
    assert ms == before + TailPairs(r);
  }

  function FixedPairs(r: Record): seq<Pair> {
    [("scriptExitCode", ExitValue(r.exit)), ("retryEligible", Word("", "false")),
     ("safeActions", ArrayOf(Append(End, Str("", Quote("inspect")))))]
  }

  method PrintFixed(r: Record, out0: string, good: bool, ghost before: seq<Pair>) returns (out: string)
    requires before != [] && (good ==> out0 == PairsText(before, ""))
    ensures good ==> out == PairsText(before + FixedPairs(r), "")
  {
    hide PairsText, Lead, Quote, Quoted, ExitValue, ArrayOf, Append, DecimalText, Bare, WfValue;
    ghost var ms := before;
    ExitIsTidy(r.exit);
    out := Plain(out0, good, false, "scriptExitCode", if r.exit.Some? then DecimalText(r.exit.value) else "null", ms, ExitValue(r.exit));
    ms := ms + [("scriptExitCode", ExitValue(r.exit))];
    WordIsTidy("false");
    out := Plain(out, good, false, "retryEligible", "false", ms, Word("", "false"));
    ms := ms + [("retryEligible", Word("", "false"))];
    InspectIsTidy();
    SingleIsTidy(Str("", Quote("inspect")));
    ghost var actions := ArrayOf(Append(End, Str("", Quote("inspect"))));
    out := Plain(out, good, false, "safeActions", "[" + (Quoted("inspect") + "]"), ms, actions);
    ms := ms + [("safeActions", actions)];
    assert ms == before + FixedPairs(r);
  }

  function ListPairs(r: Record): seq<Pair> {
    [("controlledArtifacts", ArrayOf(Append(End, ObjectOf(ArtifactPairs(r))))), ("completedPhases", ArrayOf(PhaseItems(r.completed)))]
  }

  method PrintLists(r: Record, out0: string, good0: bool, ghost before: seq<Pair>) returns (out: string, good: bool)
    requires before != [] && (good0 ==> out0 == PairsText(before, ""))
    ensures good == (good0 && ArtifactEncodable(r) && PhasesEncodable(r.completed))
    ensures good ==> out == PairsText(before + ListPairs(r), "")
  {
    hide PairsText, Lead, ArtifactEncodable, ObjectOf, ArtifactPairs, Bare, PhasesEncodable, PhaseItems, ArrayOf, Append, Tidy, WfValue;
    ghost var ms := before;
    var text, ok := PrintArtifact(r);
    good := good0 && ok;
    ArtifactTidy(r);
    ObjectIsTidy(ArtifactPairs(r));
    SingleIsTidy(ObjectOf(ArtifactPairs(r)));
    ghost var artifacts := ArrayOf(Append(End, ObjectOf(ArtifactPairs(r))));
    out := Plain(out0, good, false, "controlledArtifacts", "[" + (text + "]"), ms, artifacts);
    ms := ms + [("controlledArtifacts", artifacts)];
    text, ok := PrintPhases(r.completed);
    good := good && ok;
    out := Plain(out, good, false, "completedPhases", text, ms, ArrayOf(PhaseItems(r.completed)));
    ms := ms + [("completedPhases", ArrayOf(PhaseItems(r.completed)))];
    assert ms == before + ListPairs(r);
  }

  predicate Writable(r: Record) {
    HeadEncodable(r) && MiddleEncodable(r) && TailEncodable(r)
  }

  /** The document part of `journal_write`: the text is the printout of the
      record's tree. */
  method PrintRecord(r: Record) returns (text: Option<string>)
    ensures text.Some? == Writable(r)
    ensures text.Some? ==> text.value == JournalTree(r).Text() && JournalTree(r).Wf()
  {
    hide PairsText, HeadPairs, MiddlePairs, TailPairs, HeadEncodable, MiddleEncodable, TailEncodable, Tidy, ObjectOf, Bare, WfValue;
    var out, good := PrintHead(r);
    HeadNotEmpty(r);
    out, good := PrintMiddle(r, out, good, HeadPairs(r));
    out, good := PrintTail(r, out, good, HeadPairs(r) + MiddlePairs(r));
    if !good { return None; }
    JournalTidy(r);
    JournalText(r);
    text := Some("{" + (out + "}\n"));
  }

  lemma HeadNotEmpty(r: Record)
    ensures HeadPairs(r) != []
  {}

  lemma JournalText(r: Record)
    requires Tidy(JournalPairs(r))
    ensures JournalTree(r).Wf() && JournalTree(r).Text() == "{" + (PairsText(JournalPairs(r), "") + "}\n")
  {
    var ms := JournalPairs(r);
    hide PairsText, JournalPairs, Tidy;
    ObjectIsTidy(ms);
    MembersPrint(ms, "\n");
    PairsFollowed(ms, "", "}\n");
    var b := Body(true, MembersOf(ms), "\n");
    assert "" + b == b && "}" + "\n" == "}\n" && "" + "}\n" == "}\n";
    assert Bare(ObjectOf(ms), "\n") == "{" + b;
    assert "" + ("{" + b) == "{" + b;
  }
}
