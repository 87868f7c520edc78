/** Provider evidence: how one completed analysis becomes a verdict and the counts that are persisted. */
module ScanEvidence {
  import opened Wrappers

  /** The names of the provider's counts; any other name is carried as text. */
  datatype Label =
    | MaliciousCount | SuspiciousCount | HarmlessCount
    | Undetected | Failed | TimedOut | ConfirmedTimeout | TypeUnsupported
    | Other(text: string)

  /** A provider count: a plain integer, or any other JSON value. */
  datatype RawCount = Count(n: int) | NotAnInteger

  type RawStats = map<Label, RawCount>

  type Stats = map<Label, nat>

  datatype Verdict = Benign | Infected | NeedsReview

  datatype Assessment = Assessment(verdict: Verdict, stats: Stats)

  const INCONCLUSIVE: seq<Label> := [Undetected, Failed, TimedOut, ConfirmedTimeout, TypeUnsupported]

  const MAX_COUNT: nat := 1_000_000

  /** A missing entry, a negative one and a non-integer one are all malformed. */
  function NonNegativeCount(raw: RawStats, name: Label): Option<nat> {
    if name in raw && raw[name].Count? && raw[name].n >= 0 then Some(raw[name].n) else None
  }

  function CountAll(raw: RawStats, names: seq<Label>): Option<nat> {
    if names == [] then Some(0)
    else
      var first := NonNegativeCount(raw, names[0]);
      var rest := CountAll(raw, names[1..]);
      if first.Some? && rest.Some? then Some(first.value + rest.value) else None
  }

  /** The verdict rules in the order the code applies them; None is a malformed response. */
  function CompletedVerdict(raw: RawStats): Option<Verdict> {
    var malicious := NonNegativeCount(raw, MaliciousCount);
    var suspicious := NonNegativeCount(raw, SuspiciousCount);
    var harmless := NonNegativeCount(raw, HarmlessCount);
    var inconclusive := CountAll(raw, INCONCLUSIVE);
    if malicious.None? || suspicious.None? || harmless.None? || inconclusive.None? then None
    else if malicious.value != 0 then Some(Infected)
    else if suspicious.value != 0 then Some(NeedsReview)
    else if harmless.value == 0 then Some(NeedsReview)
    else if harmless.value <= inconclusive.value then Some(NeedsReview)
    else Some(Benign)
  }

  const REPORTED: set<Label> :=
    {MaliciousCount, SuspiciousCount, HarmlessCount, Undetected, Failed, TimedOut, ConfirmedTimeout, TypeUnsupported}

  /** The counts kept as evidence: exactly the eight known names. */
  function NormalisedStats(raw: RawStats): Option<Stats> {
    if forall name | name in REPORTED :: NonNegativeCount(raw, name).Some?
    then Some(map name | name in REPORTED :: NonNegativeCount(raw, name).value)
    else None
  }

  /** One completed poll: the counts are normalised first, then judged. */
  function Assess(raw: Option<RawStats>): Option<Assessment> {
    if raw.None? then None
    else
      var stats := NormalisedStats(raw.value);
      var verdict := CompletedVerdict(raw.value);
      if stats.None? || verdict.None? then None else Some(Assessment(verdict.value, stats.value))
  }

  /** Every persisted count is bounded; a larger one makes the repository raise. */
  predicate StatsAccepted(stats: Stats) {
    forall name | name in stats :: stats[name] <= MAX_COUNT && (name.Other? ==> 0 < |name.text| <= 64)
  }

  /** The sum of the five inconclusive outcomes in persisted evidence. */
  function Inconclusive(stats: Stats): nat
    requires REPORTED <= stats.Keys
  {
    stats[Undetected] + stats[Failed] + stats[TimedOut] + stats[ConfirmedTimeout] + stats[TypeUnsupported]
  }

  /** What persisted evidence must show before anything may be listed automatically. */
  predicate HarmlessMajority(stats: Stats) {
    && REPORTED <= stats.Keys
    && stats[MaliciousCount] == 0
    && stats[SuspiciousCount] == 0
    && stats[HarmlessCount] > Inconclusive(stats)
  }

  predicate Detected(stats: Stats) {
    && REPORTED <= stats.Keys
    && stats[MaliciousCount] > 0
  }

  lemma InconclusiveTotal(raw: RawStats)
    requires NormalisedStats(raw).Some?
    ensures CountAll(raw, INCONCLUSIVE) == Some(Inconclusive(NormalisedStats(raw).value))
  {
    var names := INCONCLUSIVE;
    assert names[1..] == [Failed, TimedOut, ConfirmedTimeout, TypeUnsupported];
    assert names[1..][1..] == [TimedOut, ConfirmedTimeout, TypeUnsupported];
    assert names[1..][1..][1..] == [ConfirmedTimeout, TypeUnsupported];
    assert names[1..][1..][1..][1..] == [TypeUnsupported];
    var last := [TypeUnsupported];
    assert last[1..] == [];
    var s := NormalisedStats(raw).value;
    assert CountAll(raw, last) == Some(s[TypeUnsupported]);
    assert CountAll(raw, names[1..][1..][1..]) == Some(s[ConfirmedTimeout] + s[TypeUnsupported]);
    assert CountAll(raw, names[1..][1..]) == Some(s[TimedOut] + s[ConfirmedTimeout] + s[TypeUnsupported]);
  }

  /** The order of the verdict rules does not matter: a completed poll is clean exactly when the
      evidence that will be persisted shows a strict harmless majority, and malicious exactly when it shows a
      detection. A poll is judged at all exactly when its eight counts are well formed. */
  lemma {:induction false} VerdictMatchesEvidence(raw: RawStats)
    ensures Assess(Some(raw)).Some? <==> NormalisedStats(raw).Some?
    ensures Assess(Some(raw)).Some? ==>
              var a := Assess(Some(raw)).value;
              && REPORTED == a.stats.Keys
              && (a.verdict == Benign <==> HarmlessMajority(a.stats))
              && (a.verdict == Infected <==> Detected(a.stats))
  {
    if NormalisedStats(raw).Some? {
      InconclusiveTotal(raw);
      assert MaliciousCount in REPORTED && SuspiciousCount in REPORTED && HarmlessCount in REPORTED;
    }
  }
}
