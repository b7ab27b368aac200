/** cortexgrid/_model_scheduler.py, the actor's memory: what it knows of a model
    is what the model reported last. */
module ModelReports {
  import opened Common
  import opened PauseSearch

  /******* _record_activity and _forget_models_silent_since *******/

  function Reported(
    models: Dict<string, ScheduledModel>, className: string, appName: string, requiredApps: seq<string>,
    hasRequests: bool, now: real)
    : (reported: Dict<string, ScheduledModel>)
    requires models.Valid()
    ensures reported.Valid()
  {
    var lastRequestAt :=
      if hasRequests then now
      else if className in models.at then models.at[className].lastRequestAt
      else 0.0;
    models.Put(className, ScheduledModel(appName, requiredApps, hasRequests, lastRequestAt, now))
  }

  function RecentSince(models: Dict<string, ScheduledModel>, cutoff: real): string -> bool {
    (name: string) => name in models.at && models.at[name].lastReportAt >= cutoff
  }

  function HeardSince(models: Dict<string, ScheduledModel>, cutoff: real): (heard: Dict<string, ScheduledModel>)
    requires models.Valid()
    ensures heard.Valid()
    ensures forall name :: name in heard.at <==> name in models.at && models.at[name].lastReportAt >= cutoff
    ensures forall name :: name in heard.at ==> heard.at[name] == models.at[name]
  {
    FilterKeepsDistinct(models.keys, RecentSince(models, cutoff));
    Dict(Filter(models.keys, RecentSince(models, cutoff)),
      map name | name in models.at && models.at[name].lastReportAt >= cutoff :: models.at[name])
  }

  /******* What reports make of it *******/

  /** What went on in the actor: a report came in, or it forgot the models
      silent since before the cutoff. */
  datatype Happening =
    | Report(className: string, appName: string, requiredApps: seq<string>, hasRequests: bool, time: real)
    | Forget(cutoff: real)

  ghost function Taken(models: Dict<string, ScheduledModel>, next: Happening): (after: Dict<string, ScheduledModel>)
    requires models.Valid()
    ensures after.Valid()
  {
    match next
    case Report(className, appName, requiredApps, hasRequests, time) =>
      Reported(models, className, appName, requiredApps, hasRequests, time)
    case Forget(cutoff) => HeardSince(models, cutoff)
  }

  ghost function After(happened: seq<Happening>): (models: Dict<string, ScheduledModel>)
    ensures models.Valid()
  {
    if happened == [] then Dict([], map[])
    else Taken(After(happened[..|happened| - 1]), happened[|happened| - 1])
  }

  ghost predicate ReportOf(happened: seq<Happening>, name: string, i: nat) {
    i < |happened| && happened[i].Report? && happened[i].className == name
  }

  /** No report of the model between the two. */
  ghost predicate SilentBetween(happened: seq<Happening>, name: string, i: nat, k: nat) {
    forall j: nat :: i < j < k ==> !ReportOf(happened, name, j)
  }

  /** At `k` the model was forgotten: its last report was before the cutoff. */
  ghost predicate ForgottenAt(happened: seq<Happening>, name: string, k: nat) {
    k < |happened| && happened[k].Forget? &&
    exists i: nat ::
      i < k && ReportOf(happened, name, i) && SilentBetween(happened, name, i, k) &&
      happened[i].time < happened[k].cutoff
  }

  /** Not forgotten since `i`. */
  ghost predicate Remembered(happened: seq<Happening>, name: string, i: nat) {
    forall k: nat :: i < k ==> !ForgottenAt(happened, name, k)
  }

  ghost predicate LastReport(happened: seq<Happening>, name: string, i: nat) {
    ReportOf(happened, name, i) && SilentBetween(happened, name, i, |happened|)
  }

  /** A report with requests that still counts. */
  ghost predicate Requested(happened: seq<Happening>, name: string, i: nat) {
    ReportOf(happened, name, i) && happened[i].hasRequests && Remembered(happened, name, i)
  }

  /** The last of these. */
  ghost predicate LastRequested(happened: seq<Happening>, name: string, i: nat) {
    Requested(happened, name, i) && forall j: nat :: i < j ==> !Requested(happened, name, j)
  }

  /** What is known of a model is its last report, and when it last had
      requests since it was last forgotten, 0.0 if it had none. */
  ghost predicate KnownAs(happened: seq<Happening>, name: string, model: ScheduledModel) {
    && (exists i: nat ::
          LastReport(happened, name, i) &&
          model.appName == happened[i].appName && model.requiredApps == happened[i].requiredApps &&
          model.hasRequests == happened[i].hasRequests && model.lastReportAt == happened[i].time)
    && RequestedLastAt(happened, name, model.lastRequestAt)
  }

  ghost predicate RequestedLastAt(happened: seq<Happening>, name: string, time: real) {
    if exists i: nat :: Requested(happened, name, i)
    then exists i: nat :: LastRequested(happened, name, i) && time == happened[i].time
    else time == 0.0
  }

  ghost predicate IsKnown(happened: seq<Happening>, name: string) {
    exists i: nat :: LastReport(happened, name, i) && Remembered(happened, name, i)
  }

  lemma SameBefore(happened: seq<Happening>, name: string)
    requires happened != []
    ensures var rest := happened[..|happened| - 1];
      forall i: nat :: i < |rest| ==>
        (ReportOf(happened, name, i) <==> ReportOf(rest, name, i)) &&
        (ForgottenAt(happened, name, i) <==> ForgottenAt(rest, name, i))
  {
    var rest := happened[..|happened| - 1];
    forall i: nat, k: nat | i <= |rest| && k <= |rest|
      ensures SilentBetween(happened, name, i, k) <==> SilentBetween(rest, name, i, k)
    {
      assert forall j: nat :: j < k ==> ReportOf(happened, name, j) == ReportOf(rest, name, j);
    }
  }

  /** Where the last happening neither is a report of the model nor makes it
      forgotten, nothing changes for the model. */
  lemma SameMemory(happened: seq<Happening>, name: string)
    requires happened != []
    requires !ReportOf(happened, name, |happened| - 1) && !ForgottenAt(happened, name, |happened| - 1)
    ensures var rest := happened[..|happened| - 1];
      && (IsKnown(happened, name) <==> IsKnown(rest, name))
      && forall model :: KnownAs(rest, name, model) ==> KnownAs(happened, name, model)
  {
    var rest := happened[..|happened| - 1];
    SameBefore(happened, name);
    hide ForgottenAt;
    forall i: nat ensures Remembered(happened, name, i) <==> Remembered(rest, name, i) {
      SameRemembered(happened, name, i);
    }
    forall i: nat
      ensures LastReport(happened, name, i) <==> LastReport(rest, name, i)
      ensures Requested(happened, name, i) <==> Requested(rest, name, i)
    {
      assert ReportOf(happened, name, i) <==> ReportOf(rest, name, i);
    }
    hide Requested, LastReport, Remembered, ReportOf;
    forall i: nat ensures LastRequested(rest, name, i) ==> LastRequested(happened, name, i) {
    }
    forall i: nat | LastReport(rest, name, i) || Requested(rest, name, i) ensures i < |rest| && happened[i] == rest[i] {
      OnlyWithin(rest, name, i);
    }
  }

  lemma OnlyWithin(happened: seq<Happening>, name: string, i: nat)
    requires LastReport(happened, name, i) || Requested(happened, name, i)
    ensures i < |happened|
  {
  }

  lemma SameRemembered(happened: seq<Happening>, name: string, i: nat)
    requires happened != [] && !ForgottenAt(happened, name, |happened| - 1)
    ensures Remembered(happened, name, i) <==> Remembered(happened[..|happened| - 1], name, i)
  {
    SameBefore(happened, name);
  }

  lemma AfterOtherReport(happened: seq<Happening>, name: string)
    requires happened != [] && happened[|happened| - 1].Report? && happened[|happened| - 1].className != name
    requires var rest := happened[..|happened| - 1];
      && (name in After(rest).at <==> IsKnown(rest, name))
      && (name in After(rest).at ==> KnownAs(rest, name, After(rest).at[name]))
    ensures name in After(happened).at <==> IsKnown(happened, name)
    ensures name in After(happened).at ==> KnownAs(happened, name, After(happened).at[name])
  {
    hide IsKnown, KnownAs;
    SameMemory(happened, name);
  }

  /** Whatever is reported was reported last at some point. */
  lemma {:induction false} LastOf(happened: seq<Happening>, name: string, j: nat) returns (i: nat)
    requires ReportOf(happened, name, j)
    ensures i >= j && LastReport(happened, name, i)
  {
    i := |happened| - 1;
    while !ReportOf(happened, name, i)
      invariant j <= i < |happened| && SilentBetween(happened, name, i, |happened|)
      decreases i
    {
      i := i - 1;
    }
  }

  /** Nothing that was asked before a model was forgotten counts any more. */
  lemma UnknownIsNotRequested(happened: seq<Happening>, name: string, j: nat)
    requires !IsKnown(happened, name)
    ensures !Requested(happened, name, j)
  {
    if ReportOf(happened, name, j) {
      var i := LastOf(happened, name, j);
      hide ReportOf, SilentBetween, ForgottenAt;
      assert !Remembered(happened, name, i);
    }
  }

  lemma AfterItsReport(happened: seq<Happening>, name: string)
    requires happened != [] && happened[|happened| - 1].Report? && happened[|happened| - 1].className == name
    requires var rest := happened[..|happened| - 1];
      && (name in After(rest).at <==> IsKnown(rest, name))
      && (name in After(rest).at ==> KnownAs(rest, name, After(rest).at[name]))
    ensures name in After(happened).at && IsKnown(happened, name)
    ensures KnownAs(happened, name, After(happened).at[name])
  {
    var n: nat := |happened| - 1;
    var rest := happened[..n];
    ReportedNow(happened, name);
    hide After;
    assert LastReport(happened, name, n) && Remembered(happened, name, n);
    hide LastReport, Remembered, IsKnown;
    if happened[n].hasRequests {
      RequestsNow(happened, name);
    } else {
      SameRequested(happened, name);
      if name !in After(rest).at {
        NeverRequested(rest, name);
      }
    }
    hide RequestedLastAt;
  }

  lemma ReportedNow(happened: seq<Happening>, name: string)
    requires happened != [] && happened[|happened| - 1].Report? && happened[|happened| - 1].className == name
    ensures var before, now, last := After(happened[..|happened| - 1]), After(happened), happened[|happened| - 1];
      && name in now.at && now.at[name].appName == last.appName && now.at[name].requiredApps == last.requiredApps
      && now.at[name].hasRequests == last.hasRequests && now.at[name].lastReportAt == last.time
      && now.at[name].lastRequestAt ==
           if last.hasRequests then last.time else if name in before.at then before.at[name].lastRequestAt else 0.0
  {
  }

  lemma RequestsNow(happened: seq<Happening>, name: string)
    requires happened != [] && ReportOf(happened, name, |happened| - 1) && happened[|happened| - 1].hasRequests
    ensures RequestedLastAt(happened, name, happened[|happened| - 1].time)
  {
    assert LastRequested(happened, name, |happened| - 1);
  }

  lemma NeverRequested(happened: seq<Happening>, name: string)
    requires !IsKnown(happened, name)
    ensures RequestedLastAt(happened, name, 0.0)
  {
    hide Requested, IsKnown;
    forall i: nat ensures !Requested(happened, name, i) {
      UnknownIsNotRequested(happened, name, i);
    }
  }

  /** A report without requests leaves it when there were some. */
  lemma SameRequested(happened: seq<Happening>, name: string)
    requires happened != [] && happened[|happened| - 1].Report? && !happened[|happened| - 1].hasRequests
    ensures forall time :: RequestedLastAt(happened[..|happened| - 1], name, time) ==>
      RequestedLastAt(happened, name, time)
  {
    var rest := happened[..|happened| - 1];
    forall i: nat ensures Requested(happened, name, i) <==> Requested(rest, name, i) {
      SameBefore(happened, name);
      SameRemembered(happened, name, i);
    }
    hide Requested;
    forall i: nat | LastRequested(rest, name, i) ensures LastRequested(happened, name, i) && happened[i] == rest[i] {
      OnlyWithin(rest, name, i);
    }
  }

  lemma AfterForgetting(happened: seq<Happening>, name: string)
    requires happened != [] && happened[|happened| - 1].Forget?
    requires var rest := happened[..|happened| - 1];
      && (name in After(rest).at <==> IsKnown(rest, name))
      && (name in After(rest).at ==> KnownAs(rest, name, After(rest).at[name]))
    ensures name in After(happened).at <==> IsKnown(happened, name)
    ensures name in After(happened).at ==> KnownAs(happened, name, After(happened).at[name])
  {
    if ForgottenAt(happened, name, |happened| - 1) {
      ForgottenNow(happened, name);
    } else {
      hide ReportOf;
      KeptNow(happened, name);
      SameMemory(happened, name);
    }
    hide IsKnown, KnownAs, ForgottenAt;
  }

  lemma SameLastReport(happened: seq<Happening>, name: string, i: nat)
    requires happened != [] && happened[|happened| - 1].Forget?
    ensures LastReport(happened, name, i) <==> LastReport(happened[..|happened| - 1], name, i)
  {
    SameBefore(happened, name);
  }

  lemma ForgottenNow(happened: seq<Happening>, name: string)
    requires happened != [] && happened[|happened| - 1].Forget? && ForgottenAt(happened, name, |happened| - 1)
    ensures !IsKnown(happened, name)
    ensures forall model :: KnownAs(happened[..|happened| - 1], name, model) ==>
      model.lastReportAt < happened[|happened| - 1].cutoff
  {
    var n: nat := |happened| - 1;
    var rest := happened[..n];
    var i: nat :| i < n && ReportOf(happened, name, i) && SilentBetween(happened, name, i, n) &&
      happened[i].time < happened[n].cutoff;
    SameLastReport(happened, name, i);
    forall k: nat ensures LastReport(rest, name, k) ==> k == i {
      SameLastReport(happened, name, k);
    }
    hide Requested, RequestedLastAt;
  }

  lemma KeptNow(happened: seq<Happening>, name: string)
    requires happened != [] && happened[|happened| - 1].Forget? && !ForgottenAt(happened, name, |happened| - 1)
    ensures forall model :: KnownAs(happened[..|happened| - 1], name, model) ==>
      model.lastReportAt >= happened[|happened| - 1].cutoff
  {
    hide RequestedLastAt;
    var n: nat := |happened| - 1;
    var rest := happened[..n];
    forall i: nat | LastReport(rest, name, i) ensures rest[i].time >= happened[n].cutoff {
      SameBefore(happened, name);
      assert ReportOf(happened, name, i) && SilentBetween(happened, name, i, n);
    }
  }

  /** Whatever came in and was forgotten, the actor knows exactly the models
      that reported and were not forgotten since, as they last reported. */
  lemma {:induction false} MemoryMeaning(happened: seq<Happening>, name: string)
    ensures name in After(happened).at <==> IsKnown(happened, name)
    ensures name in After(happened).at ==> KnownAs(happened, name, After(happened).at[name])
  {
    if happened != [] {
      var rest, last := happened[..|happened| - 1], happened[|happened| - 1];
      MemoryMeaning(rest, name);
      SameBefore(happened, name);
      if last.Report? && last.className == name {
        AfterItsReport(happened, name);
      } else if last.Report? {
        AfterOtherReport(happened, name);
      } else {
        AfterForgetting(happened, name);
      }
    }
  }

  /** The first report that still counts. */
  ghost predicate Joined(happened: seq<Happening>, name: string, i: nat) {
    && ReportOf(happened, name, i) && Remembered(happened, name, i)
    && forall j: nat :: j < i && ReportOf(happened, name, j) ==> !Remembered(happened, name, j)
  }

  ghost predicate JoinedBefore(happened: seq<Happening>, first: string, second: string) {
    exists i: nat, j: nat :: i < j && Joined(happened, first, i) && Joined(happened, second, j)
  }

  lemma JoinedStays(happened: seq<Happening>, name: string, i: nat)
    requires happened != [] && name in After(happened[..|happened| - 1]).at && name in After(happened).at
    requires Joined(happened[..|happened| - 1], name, i)
    ensures Joined(happened, name, i) && i < |happened| - 1
  {
    var rest := happened[..|happened| - 1];
    SameBefore(happened, name);
    MemoryMeaning(happened, name);
    NotForgottenNow(happened, name);
    hide ForgottenAt;
    forall j: nat ensures Remembered(happened, name, j) <==> Remembered(rest, name, j) {
      SameRemembered(happened, name, j);
    }
  }

  lemma NotForgottenNow(happened: seq<Happening>, name: string)
    requires happened != [] && IsKnown(happened, name)
    ensures !ForgottenAt(happened, name, |happened| - 1)
  {
    if ForgottenAt(happened, name, |happened| - 1) {
      ForgottenNow(happened, name);
    }
  }

  lemma JoinsNow(happened: seq<Happening>, name: string)
    requires happened != [] && name !in After(happened[..|happened| - 1]).at && name in After(happened).at
    ensures Joined(happened, name, |happened| - 1)
  {
    var rest := happened[..|happened| - 1];
    MemoryMeaning(rest, name);
    var n: nat := |happened| - 1;
    assert happened[n].Report? && happened[n].className == name;
    SameBefore(happened, name);
    forall j: nat | j < n && ReportOf(happened, name, j) ensures !Remembered(happened, name, j) {
      SameRemembered(happened, name, j);
      var i := LastOf(rest, name, j);
      assert !Remembered(rest, name, i);
    }
  }

  /** The models are kept in the order in which they joined. */
  lemma {:induction false} MemoryOrder(happened: seq<Happening>, k: nat, m: nat)
    requires k < m < |After(happened).keys|
    ensures JoinedBefore(happened, After(happened).keys[k], After(happened).keys[m])
  {
    var n := |happened| - 1;
    var rest, last := happened[..n], happened[n];
    var before, after := After(rest), After(happened);
    var first, second := after.keys[k], after.keys[m];
    assert first in after.keys && second in after.keys;
    if last.Forget? {
      var picks := FilterPicks(before.keys, RecentSince(before, last.cutoff));
      assert picks[k] < picks[m] && before.keys[picks[k]] == first && before.keys[picks[m]] == second;
      assert first in before.keys && second in before.keys;
      MemoryOrder(rest, picks[k], picks[m]);
      BothStay(happened, first, second);
    } else if m < |before.keys| {
      assert first == before.keys[k] && second == before.keys[m];
      assert first in before.keys && second in before.keys;
      MemoryOrder(rest, k, m);
      BothStay(happened, first, second);
    } else {
      assert first == before.keys[k] && first in before.keys;
      assert second !in before.at by {
        assert after.keys == before.keys + [last.className];
      }
      JoinsNow(happened, second);
      var i := HasJoined(rest, first);
      JoinedStays(happened, first, i);
    }
  }

  lemma BothStay(happened: seq<Happening>, first: string, second: string)
    requires happened != [] && JoinedBefore(happened[..|happened| - 1], first, second)
    requires first in After(happened[..|happened| - 1]).at && first in After(happened).at
    requires second in After(happened[..|happened| - 1]).at && second in After(happened).at
    ensures JoinedBefore(happened, first, second)
  {
    hide Joined, After;
    var rest := happened[..|happened| - 1];
    var i: nat, j: nat :| i < j && Joined(rest, first, i) && Joined(rest, second, j);
    JoinedStays(happened, first, i);
    JoinedStays(happened, second, j);
  }

  lemma HasJoined(happened: seq<Happening>, name: string) returns (i: nat)
    requires name in After(happened).at
    ensures Joined(happened, name, i)
  {
    MemoryMeaning(happened, name);
    hide After, Remembered;
    var last: nat :| LastReport(happened, name, last) && Remembered(happened, name, last);
    i := 0;
    while !(ReportOf(happened, name, i) && Remembered(happened, name, i))
      invariant i <= last
      invariant forall j: nat :: j < i && ReportOf(happened, name, j) ==> !Remembered(happened, name, j)
      decreases last - i
    {
      i := i + 1;
    }
  }
}
