/** Package entries, and the candidate choice of wpm/repository.c. */
module Packages {
  import opened JsonFields
  import opened Strings
  import opened Semver

  datatype Entry = Entry(name: string, version: string, arch: string, url: string, priority: int, order: int)

  /** `_stricmp(a, b) == 0` */
  predicate SameFolded(a: string, b: string) {
    Fold(a) == Fold(b)
  }

  /** What a request asks for.  `arch` is absent only for an install that takes
      the native architecture or "any". */
  datatype Request = Request(name: string, arch: Option<string>, version: Option<string>, target: string, prereleases: bool)

  predicate IsPrerelease(version: string) {
    IsVersion(version) && ParseVersion(version).value.pre.Some?
  }

  predicate Native(q: Request, e: Entry) {
    SameFolded(e.arch, q.target)
  }

  predicate Admissible(q: Request, e: Entry) {
    && SameFolded(e.name, q.name)
    && IsVersion(e.version)
    && (q.version.Some? ==> e.version == q.version.value)
    && (IsPrerelease(e.version) ==> q.prereleases)
    && match q.arch
       case None => Native(q, e) || SameFolded(e.arch, "any")
       case Some(arch) => SameFolded(e.arch, arch)
  }

  /** Native before "any" when no architecture is given, then precedence, then
      priority, then the lower repository order. */
  predicate Beats(q: Request, a: Entry, b: Entry) {
    if q.arch.None? && Native(q, a) != Native(q, b) then Native(q, a)
    else
      var c := VersionOrder(a.version, b.version);
      c > 0 || (c == 0 && (a.priority > b.priority || (a.priority == b.priority && a.order < b.order)))
  }

  lemma BeatsTransitive(q: Request, a: Entry, b: Entry, c: Entry)
    requires Admissible(q, a) && Admissible(q, b) && Admissible(q, c)
    requires Beats(q, a, b) && !Beats(q, c, b)
    ensures Beats(q, a, c)
  {
    hide VersionOrder, IsVersion;
    VersionOrderIsPreorder(a.version, b.version, c.version);
    VersionOrderIsPreorder(b.version, c.version, a.version);
    VersionOrderIsPreorder(c.version, b.version, a.version);
    VersionOrderIsPreorder(a.version, c.version, b.version);
    VersionOrderIsPreorder(c.version, a.version, b.version);
  }

  lemma BeatsIrreflexive(q: Request, a: Entry)
    requires Admissible(q, a)
    ensures !Beats(q, a, a)
  {
    VersionOrderIsPreorder(a.version, a.version, a.version);
  }

  lemma BeatsAsymmetric(q: Request, a: Entry, b: Entry)
    requires Admissible(q, a) && Admissible(q, b) && Beats(q, a, b)
    ensures !Beats(q, b, a)
  {
    VersionOrderIsPreorder(a.version, b.version, a.version);
  }

  /** `better_candidate` */
  method BetterCandidate(candidate: Entry, selected: Entry) returns (better: bool)
    ensures var c := VersionOrder(candidate.version, selected.version);
            better == (IsVersion(candidate.version) && IsVersion(selected.version) &&
                       (c > 0 || (c == 0 && (candidate.priority > selected.priority ||
                                             (candidate.priority == selected.priority && candidate.order < selected.order)))))
  {
    var c, valid := CompareVersions(candidate.version, selected.version);
    if !valid { return false; }
    better := c > 0 || (c == 0 && (candidate.priority > selected.priority ||
                                   (candidate.priority == selected.priority && candidate.order < selected.order)));
  }

  /** The best of the first `n` entries: the earliest that none of them beats. */
  ghost predicate Best(q: Request, entries: seq<Entry>, n: nat, r: Option<nat>) {
    n <= |entries| &&
    match r
    case None => forall j :: 0 <= j < n ==> !Admissible(q, entries[j])
    case Some(k) =>
      && k < n && Admissible(q, entries[k])
      && (forall j :: 0 <= j < n && Admissible(q, entries[j]) ==> !Beats(q, entries[j], entries[k]))
      && (forall j :: 0 <= j < k && Admissible(q, entries[j]) ==> Beats(q, entries[k], entries[j]))
  }

  lemma BestNext(q: Request, entries: seq<Entry>, n: nat, r: Option<nat>)
    requires n < |entries| && Best(q, entries, n, r)
    ensures !Admissible(q, entries[n]) ==> Best(q, entries, n + 1, r)
    ensures Admissible(q, entries[n]) && r.Some? && !Beats(q, entries[n], entries[r.value]) ==> Best(q, entries, n + 1, r)
    ensures Admissible(q, entries[n]) && (r.Some? ==> Beats(q, entries[n], entries[r.value])) ==> Best(q, entries, n + 1, Some(n))
  {
    hide Admissible, Beats;
    if Admissible(q, entries[n]) && (r.Some? ==> Beats(q, entries[n], entries[r.value])) {
      BeatsIrreflexive(q, entries[n]);
      forall j | 0 <= j < n && Admissible(q, entries[j]) && r.Some?
        ensures Beats(q, entries[n], entries[j]) && !Beats(q, entries[j], entries[n]) {
        BeatsTransitive(q, entries[n], entries[r.value], entries[j]);
        BeatsAsymmetric(q, entries[n], entries[j]);
      }
    }
  }

  /** `select_candidate`: the index of the chosen entry. */
  method SelectCandidate(q: Request, entries: seq<Entry>) returns (selected: Option<nat>)
    requires !SameFolded(q.target, "any")
    ensures Best(q, entries, |entries|, selected)
  {
    hide VersionOrder, Best, ParseVersion;
    selected := None;
    BestOfNone(q, entries);
    for i := 0 to |entries|
      invariant Best(q, entries, i, selected)
    {
      var e := entries[i];
      BestNext(q, entries, i, selected);
      if selected.Some? { BestIsAdmissible(q, entries, i, selected); }
      if !SameFolded(e.name, q.name) { continue; }
      var parsed := ReadVersion(e.version);
      if parsed.None? { continue; }
      if q.version.Some? && e.version != q.version.value { continue; }
      if parsed.value.pre.Some? && !q.prereleases { continue; }
      if q.arch.None? {
        if !SameFolded(e.arch, q.target) && !SameFolded(e.arch, "any") { continue; }
        if selected.Some? && SameFolded(entries[selected.value].arch, q.target) && SameFolded(e.arch, "any") { continue; }
        if selected.Some? && SameFolded(entries[selected.value].arch, "any") && SameFolded(e.arch, q.target) {
          selected := Some(i);
          continue;
        }
      } else if !SameFolded(e.arch, q.arch.value) {
        continue;
      }
      var better := selected.None?;
      if selected.Some? { better := BetterCandidate(e, entries[selected.value]); }
      if better { selected := Some(i); }
    }
  }

  lemma BestOfNone(q: Request, entries: seq<Entry>)
    ensures Best(q, entries, 0, None)
  {}

  lemma BestIsAdmissible(q: Request, entries: seq<Entry>, n: nat, r: Option<nat>)
    requires Best(q, entries, n, r) && r.Some?
    ensures r.value < n <= |entries| && Admissible(q, entries[r.value])
  {}

  /** The choice does not depend on the order of the catalogue: entries chosen
      from two orders of it never beat each other. */
  lemma ChoiceIgnoresOrder(q: Request, a: seq<Entry>, b: seq<Entry>, x: Option<nat>, y: Option<nat>)
    requires multiset(a) == multiset(b) && Best(q, a, |a|, x) && Best(q, b, |b|, y)
    ensures x.None? <==> y.None?
    ensures x.Some? ==> !Beats(q, a[x.value], b[y.value]) && !Beats(q, b[y.value], a[x.value])
  {
    hide Admissible, Beats;
    if x.Some? {
      assert a[x.value] in multiset(b);
      var j :| 0 <= j < |b| && b[j] == a[x.value];
    }
    if y.Some? {
      assert b[y.value] in multiset(a);
      var j :| 0 <= j < |a| && a[j] == b[y.value];
    }
  }

  /** The chosen entry against any other admissible one: native when that is, of no
      lower version, at equal versions of no lower priority, then from no later
      root, and then the earlier of the two. */
  lemma ChoiceIsMaximal(q: Request, entries: seq<Entry>, k: nat, j: nat)
    requires Best(q, entries, |entries|, Some(k)) && j < |entries| && Admissible(q, entries[j])
    ensures k < |entries| && Admissible(q, entries[k])
    ensures var x, y := entries[k], entries[j];
            && (q.arch.None? && SameFolded(y.arch, q.target) ==> SameFolded(x.arch, q.target))
            && (q.arch.Some? || SameFolded(x.arch, q.target) == SameFolded(y.arch, q.target) ==>
                  var c := VersionOrder(x.version, y.version);
                  && c >= 0
                  && (c == 0 ==> x.priority >= y.priority)
                  && (c == 0 && x.priority == y.priority ==> x.order <= y.order)
                  && (c == 0 && x.priority == y.priority && x.order == y.order ==> k <= j))
  {
    hide VersionOrder, IsVersion, Fold;
    AdmissibleIsVersion(q, entries[k]);
    AdmissibleIsVersion(q, entries[j]);
    VersionOrderIsPreorder(entries[k].version, entries[j].version, entries[k].version);
  }

  lemma AdmissibleIsVersion(q: Request, e: Entry)
    requires Admissible(q, e)
    ensures IsVersion(e.version)
  {
    hide IsVersion, Fold;
  }
}
