/** cortexgrid/ray_util.py, submission ids: shaped run-job-attempt, parsed back
    from the right and matched from the left. */
module RayIds {
  import opened Common
  import opened Decimal

  predicate DashFree(s: string) {
    forall i :: 0 <= i < |s| ==> s[i] != '-'
  }

  /** Run ids hold no dash; job ids are two words and a number, dashes between. */
  datatype JobKey = JobKey(run: string, adjective: string, noun: string, number: string)
  {
    predicate WellFormed() {
      DashFree(run) && DashFree(adjective) && DashFree(noun) && DashFree(number)
    }

    function JobId(): string {
      adjective + ("-" + (noun + ("-" + number)))
    }

    /** ray_submission_id without an attempt: the key of the dict in flight. */
    function Core(): string {
      run + ("-" + JobId())
    }

    function Prefix(): string {
      Core() + "-"
    }

    function SubmissionId(attempt: nat): string {
      Prefix() + Numeral(attempt)
    }
  }

  /** str.rpartition("-"): the position of the last dash. */
  function LastDash(s: string): Option<nat> {
    if s == [] then None
    else if s[|s| - 1] == '-' then Some(|s| - 1)
    else LastDash(s[..|s| - 1])
  }

  lemma {:induction false} LastDashBefore(s: string, suffix: string)
    requires DashFree(suffix)
    ensures LastDash(s + "-" + suffix) == Some(|s|)
  {
    if suffix == [] {
      assert s + "-" + suffix == s + "-";
    } else {
      var shorter := suffix[..|suffix| - 1];
      assert (s + "-" + suffix)[..|s + "-" + suffix| - 1] == s + "-" + shorter;
      LastDashBefore(s, shorter);
    }
  }

  lemma {:induction false} LastDashInside(s: string)
    ensures LastDash(s).Some? ==> LastDash(s).value < |s|
  {
    if s != [] && s[|s| - 1] != '-' {
      LastDashInside(s[..|s| - 1]);
    }
  }

  /** get_ray_job_attempt: None where the source raises ValueError. */
  function Attempt(id: string): Option<nat> {
    LastDashInside(id);
    var dash := LastDash(id);
    if dash.None? then None
    else
      var suffix := id[dash.value + 1..];
      if suffix != [] && AllDigits(suffix) then Some(Read(suffix)) else None
  }

  lemma AttemptParsesBack(key: JobKey, attempt: nat)
    ensures Attempt(key.SubmissionId(attempt)) == Some(attempt)
  {
    var n := Numeral(attempt);
    assert DashFree(n);
    LastDashBefore(key.Core(), n);
    assert key.SubmissionId(attempt) == key.Core() + "-" + n;
    ReadNumeral(attempt);
  }

  /** An id has an attempt exactly if digits follow its last dash, and then the
      attempt is what these stand for. */
  lemma AttemptMeaning(id: string, n: nat)
    ensures Attempt(id) == Some(n) <==> exists head, digits :: ReadsAs(id, head, digits, n)
  {
    LastDashInside(id);
    LastDashMeaning(id);
    var dash := LastDash(id);
    if Attempt(id) == Some(n) {
      var head, digits := id[..dash.value], id[dash.value + 1..];
      ReadIsPositional(digits);
      assert ReadsAs(id, head, digits, n);
    }
    if head, digits :| ReadsAs(id, head, digits, n) {
      assert DashFree(digits);
      LastDashBefore(head, digits);
      ReadIsPositional(digits);
      assert id[|head| + 1..] == digits;
    }
  }

  ghost predicate ReadsAs(id: string, head: string, digits: string, n: nat) {
    id == head + "-" + digits && digits != [] && AllDigits(digits) && Positional(digits) == n
  }

  lemma {:induction false} LastDashMeaning(s: string)
    ensures LastDash(s).Some? ==> LastDash(s).value < |s| && s[LastDash(s).value] == '-'
  {
    if s != [] && s[|s| - 1] != '-' {
      LastDashMeaning(s[..|s| - 1]);
    }
  }

  /** The id spelled out. */
  lemma SubmissionIdText(key: JobKey, attempt: nat)
    ensures key.SubmissionId(attempt) ==
      key.run + "-" + key.adjective + "-" + key.noun + "-" + key.number + "-" + Numeral(attempt)
  {
    PrefixNested(key, Numeral(attempt));
  }

  /******* Matching by prefix *******/

  /** The text before the first dash is determined. */
  lemma SplitAtDash(a: string, x: string, b: string, y: string)
    requires DashFree(a) && DashFree(b)
    requires a + ("-" + x) <= b + ("-" + y)
    ensures a == b && x <= y
  {
    var p, q := a + ("-" + x), b + ("-" + y);
    assert forall i :: 0 <= i < |p| ==> p[i] == q[i];
    assert p[|a|] == '-' && q[|b|] == '-';
    assert forall i :: 0 <= i < |b| ==> q[i] == b[i];
    assert forall i :: 0 <= i < |a| ==> p[i] == a[i];
    assert a == p[..|a|] == q[..|a|] == b;
    assert x == p[|a| + 1..] && y == q[|a| + 1..];
  }

  lemma PrefixNested(key: JobKey, rest: string)
    ensures key.Prefix() + rest ==
            key.run + ("-" + (key.adjective + ("-" + (key.noun + ("-" + (key.number + ("-" + rest)))))))
  {
  }

  /** A job's prefix starts exactly its own submission ids. */
  lemma PrefixMatchesOwnOnly(key: JobKey, other: JobKey, attempt: nat)
    requires key.WellFormed() && other.WellFormed()
    ensures key.Prefix() <= other.SubmissionId(attempt) <==> key == other
  {
    if key.Prefix() <= other.SubmissionId(attempt) {
      var n := Numeral(attempt);
      PrefixNested(key, "");
      PrefixNested(other, n);
      assert key.Prefix() + "" == key.Prefix();
      SplitAtDash(key.run, key.adjective + ("-" + (key.noun + ("-" + (key.number + ("-" + ""))))),
        other.run, other.adjective + ("-" + (other.noun + ("-" + (other.number + ("-" + n))))));
      SplitAtDash(key.adjective, key.noun + ("-" + (key.number + ("-" + ""))),
        other.adjective, other.noun + ("-" + (other.number + ("-" + n))));
      SplitAtDash(key.noun, key.number + ("-" + ""), other.noun, other.number + ("-" + n));
      SplitAtDash(key.number, "", other.number, n);
    }
  }

  /** Two jobs never share an entry of the dict in flight. */
  lemma CoreIdentifies(key: JobKey, other: JobKey)
    requires key.WellFormed() && other.WellFormed() && key.Core() == other.Core()
    ensures key == other
  {
    assert key.Prefix() <= other.SubmissionId(0);
    PrefixMatchesOwnOnly(key, other, 0);
  }

  lemma SubmissionIdIdentifies(key: JobKey, attempt: nat, other: JobKey, otherAttempt: nat)
    requires key.WellFormed() && other.WellFormed()
    requires key.SubmissionId(attempt) == other.SubmissionId(otherAttempt)
    ensures key == other && attempt == otherAttempt
  {
    PrefixMatchesOwnOnly(key, other, otherAttempt);
    AttemptParsesBack(key, attempt);
    AttemptParsesBack(other, otherAttempt);
  }

  /******* The latest attempt *******/

  /** The largest attempt of the ids that start with the job's prefix. */
  ghost predicate IsLatestSubmission(ids: seq<string>, key: JobKey, latest: Option<string>) {
    match latest
    case None => forall i :: 0 <= i < |ids| ==> !(key.Prefix() <= ids[i])
    case Some(id) => exists p: nat :: IsFirstLargest(ids, key, p) && ids[p] == id
  }

  ghost predicate IsFirstLargest(ids: seq<string>, key: JobKey, p: nat) {
    && p < |ids| && key.Prefix() <= ids[p] && Attempt(ids[p]).Some?
    && forall i :: 0 <= i < |ids| && key.Prefix() <= ids[i] && Attempt(ids[i]).Some? ==>
         Attempt(ids[i]).value <= Attempt(ids[p]).value &&
         (i < p ==> Attempt(ids[i]).value < Attempt(ids[p]).value)
  }

  /** `Malformed` is the ValueError for an id without an attempt. */
  datatype Match = Malformed(id: string) | Latest(submission: Option<string>)

  ghost predicate HasMalformed(ids: seq<string>, key: JobKey) {
    exists i :: 0 <= i < |ids| && key.Prefix() <= ids[i] && Attempt(ids[i]).None?
  }

  /** max(..., key=get_ray_job_attempt) over the ids that start with the
      prefix: it raises exactly if one of these has no attempt; else None if
      there are none, and the first of the largest otherwise. */
  method LatestSubmission(ids: seq<string>, key: JobKey) returns (found: Match)
    ensures found.Malformed? <==> HasMalformed(ids, key)
    ensures found.Malformed? ==> found.id in ids && key.Prefix() <= found.id && Attempt(found.id).None?
    ensures found.Latest? ==> IsLatestSubmission(ids, key, found.submission)
  {
    var latest := None;
    var i := 0;
    while i < |ids|
      invariant 0 <= i <= |ids|
      invariant !HasMalformed(ids[..i], key) && IsLatestSubmission(ids[..i], key, latest)
    {
      assert ids[..i + 1] == ids[..i] + [ids[i]];
      if key.Prefix() <= ids[i] {
        if Attempt(ids[i]).None? {
          return Malformed(ids[i]);
        }
        FirstLargestNext(ids[..i], key, latest, ids[i]);
        if latest.None? || Attempt(ids[i]).value > Attempt(latest.value).value {
          latest := Some(ids[i]);
        }
      }
      i := i + 1;
    }
    assert ids[..i] == ids;
    found := Latest(latest);
  }

  lemma FirstLargestNext(ids: seq<string>, key: JobKey, latest: Option<string>, id: string)
    requires IsLatestSubmission(ids, key, latest) && key.Prefix() <= id && Attempt(id).Some?
    requires !HasMalformed(ids, key)
    ensures latest.Some? ==> Attempt(latest.value).Some?
    ensures IsLatestSubmission(ids + [id], key,
      if latest.None? || Attempt(id).value > Attempt(latest.value).value then Some(id) else latest)
  {
    hide Attempt, JobKey.Prefix;
    var longer := ids + [id];
    if latest.Some? {
      var p: nat :| IsFirstLargest(ids, key, p) && ids[p] == latest.value;
      if Attempt(id).value > Attempt(latest.value).value {
        assert IsFirstLargest(longer, key, |ids|);
      } else {
        assert IsFirstLargest(longer, key, p);
      }
    } else {
      assert IsFirstLargest(longer, key, |ids|);
    }
  }

  /** Ray's listing holds, of the jobs in `attempts`, exactly the submissions of
      these attempts: no other id carries one of their prefixes. */
  ghost predicate Lists(ids: seq<string>, attempts: map<JobKey, set<nat>>) {
    && (forall key, n :: key in attempts && n in attempts[key] ==> key.SubmissionId(n) in ids)
    && (forall key, id :: key in attempts && id in ids && key.Prefix() <= id ==>
          exists n :: n in attempts[key] && id == key.SubmissionId(n))
  }

  /** Such a listing may hold anything else beside, the submissions of other
      jobs, deleted ones say, among them. */
  lemma OthersMayBeListed(ids: seq<string>, all: map<JobKey, set<nat>>, some: set<JobKey>)
    requires some <= all.Keys && forall key :: key in all ==> key.WellFormed()
    requires forall id :: id in ids <==> exists key, n :: key in all && n in all[key] && id == key.SubmissionId(n)
    ensures Lists(ids, map key | key in some :: all[key])
  {
    forall key, id | key in some && id in ids && key.Prefix() <= id
      ensures exists n :: n in all[key] && id == key.SubmissionId(n)
    {
      var other, n :| other in all && n in all[other] && id == other.SubmissionId(n);
      PrefixMatchesOwnOnly(key, other, n);
    }
  }

  /** Over such a listing the match is exact: the latest submission is the
      job's numerically largest attempt, 10 after 9, whatever else is listed. */
  lemma LatestIsLargestAttempt(ids: seq<string>, attempts: map<JobKey, set<nat>>, key: JobKey, latest: Option<string>)
    requires Lists(ids, attempts) && key in attempts
    requires IsLatestSubmission(ids, key, latest)
    ensures latest.None? <==> attempts[key] == {}
    ensures latest.Some? ==>
      exists n :: n in attempts[key] && latest.value == key.SubmissionId(n) && forall m :: m in attempts[key] ==> m <= n
  {
    forall m | m in attempts[key]
      ensures exists i :: 0 <= i < |ids| && key.Prefix() <= ids[i] && Attempt(ids[i]) == Some(m)
    {
      AttemptParsesBack(key, m);
      assert key.SubmissionId(m) in ids;
    }
    if latest.Some? {
      var p: nat :| IsFirstLargest(ids, key, p) && ids[p] == latest.value;
      assert ids[p] in ids;
      var n :| n in attempts[key] && latest.value == key.SubmissionId(n);
      AttemptParsesBack(key, n);
    }
  }

  /** The match never raises over such a listing. */
  lemma ListedIdsParse(ids: seq<string>, attempts: map<JobKey, set<nat>>, key: JobKey)
    requires Lists(ids, attempts) && key in attempts
    ensures !HasMalformed(ids, key)
  {
    forall i | 0 <= i < |ids| && key.Prefix() <= ids[i] ensures Attempt(ids[i]).Some? {
      assert ids[i] in ids;
      var n :| n in attempts[key] && ids[i] == key.SubmissionId(n);
      AttemptParsesBack(key, n);
    }
  }
}
