/** The arithmetic and bookkeeping of AdminManager: credential check, the
    seven-day retention rule, the dashboard's size, age and expiry labels,
    and the storage clean-up passes. The clock is a parameter (milliseconds
    since the epoch); the database table is a sequence of rows. */
module AdminManager {
  import opened JsValues

  /** 7 * 24 * 60 * 60 * 1000 milliseconds. */
  const DATA_RETENTION_PERIOD: int := 604800000
  /** 24 * 60 * 60 * 1000 milliseconds. */
  const DAY: int := 86400000

  datatype Credentials = Credentials(username: string, password: string)

  /** validateAdminCredentials against the stored pair. */
  function ValidateAdminCredentials(stored: Credentials, username: string, password: string): (ok: bool)
    ensures ok <==> Credentials(username, password) == stored
  {
    username == stored.username && password == stored.password
  }

  /** Only the stored pair is accepted. */
  lemma OnlyStoredPairAccepted(stored: Credentials, username: string, password: string)
    requires username != stored.username || password != stored.password
    ensures !ValidateAdminCredentials(stored, username, password)
  {
  }

  /** Math.ceil(a / DAY). */
  function CeilDays(a: int): (q: int)
    ensures DAY * (q - 1) < a <= DAY * q
  {
    -((-a) / DAY)
  }

  /** Math.floor(a / DAY). */
  function FloorDays(a: int): (q: int)
    ensures DAY * q <= a < DAY * (q + 1)
  {
    a / DAY
  }

  /** getDaysUntilExpiry: whole days, rounded up, until the record is seven
      days old, and never negative. */
  function GetDaysUntilExpiry(completedAt: int, now: int): (days: nat)
    ensures days == 0 <==> now >= completedAt + DATA_RETENTION_PERIOD
    ensures days > 0 ==> DAY * (days - 1) < completedAt + DATA_RETENTION_PERIOD - now <= DAY * days
  {
    var timeLeft := completedAt + DATA_RETENTION_PERIOD - now;
    var c := CeilDays(timeLeft);
    if c > 0 then c else 0
  }

  /** A record just completed has seven days left, and never more while its
      time stamp is not in the future. */
  lemma DaysAtCompletion(completedAt: int, now: int)
    requires completedAt <= now
    ensures GetDaysUntilExpiry(completedAt, completedAt) == 7
    ensures GetDaysUntilExpiry(completedAt, now) <= 7
  {
  }

  /** The count only goes down as the clock moves on. */
  lemma DaysNonIncreasing(completedAt: int, now1: int, now2: int)
    requires now1 <= now2
    ensures GetDaysUntilExpiry(completedAt, now2) <= GetDaysUntilExpiry(completedAt, now1)
  {
    var d1 := GetDaysUntilExpiry(completedAt, now1);
    var d2 := GetDaysUntilExpiry(completedAt, now2);
    if d2 > 0 {
      assert DAY * (d2 - 1) < completedAt + DATA_RETENTION_PERIOD - now2;
      assert completedAt + DATA_RETENTION_PERIOD - now1 <= DAY * d1;
    }
  }

  /** The cleanup cutoff: completed_at < now - period, strictly. The select
      and the delete use this same cutoff. */
  predicate IsExpired(completedAt: int, now: int)
  {
    completedAt < now - DATA_RETENTION_PERIOD
  }

  /** Whatever cleanup deletes is labelled Expired on the dashboard; the
      converse fails for exactly one millisecond, at which a row already
      shown as Expired is still kept. */
  lemma ExpiredIsLabelledExpired(completedAt: int, now: int)
    ensures IsExpired(completedAt, now) ==> GetDaysUntilExpiry(completedAt, now) == 0
    ensures GetDaysUntilExpiry(completedAt, now) == 0 && !IsExpired(completedAt, now)
            <==> now == completedAt + DATA_RETENTION_PERIOD
  {
  }

  /** `${days} days` while days remain, else 'Expired'. */
  function ExpiryText(days: int): (s: string)
    ensures s == "Expired" <==> days <= 0
    ensures days > 0 ==> s == NatToString(days) + " days"
  {
    if days > 0 then
      var text := NatToString(days) + " days";
      assert '0' <= text[0] <= '9';
      text
    else "Expired"
  }

  /** Green above three days, orange for one to three, red otherwise. */
  function ExpiryColor(days: int): (c: string)
    ensures c == "#4CAF50" <==> days > 3
    ensures c == "#FF9800" <==> 1 <= days <= 3
    ensures c == "#d32f2f" <==> days <= 0
  {
    if days > 3 then "#4CAF50" else if days > 0 then "#FF9800" else "#d32f2f"
  }

  /** The label and the colour agree: red exactly when the text says Expired. */
  lemma ExpiryLabelAgrees(completedAt: int, now: int)
    ensures var days := GetDaysUntilExpiry(completedAt, now);
            (ExpiryColor(days) == "#d32f2f") <==> (ExpiryText(days) == "Expired")
  {
  }

  /** A dashboard entry: when the participant completed and the stored size. */
  datatype ParticipantSummary = ParticipantSummary(participantId: string, completedAt: int, dataSize: Option<int>)

  /** `participant.dataSize || 0`. */
  function SizeOrZero(p: ParticipantSummary): int
  {
    match p.dataSize
    case Some(n) => n
    case None => 0
  }

  /** calculateTotalDataSize: the left fold of the sizes from 0. */
  function CalculateTotalDataSize(allData: seq<ParticipantSummary>): (total: int)
    ensures |allData| == 0 ==> total == 0
    ensures (forall i :: 0 <= i < |allData| ==> SizeOrZero(allData[i]) >= 0) ==> total >= 0
  {
    if |allData| == 0 then 0
    else CalculateTotalDataSize(allData[..|allData| - 1]) + SizeOrZero(allData[|allData| - 1])
  }

  /** A single entry contributes its size, a missing one 0. */
  lemma TotalDataSizeSingle(p: ParticipantSummary)
    ensures CalculateTotalDataSize([p]) == SizeOrZero(p)
    ensures p.dataSize.Some? ==> CalculateTotalDataSize([p]) == p.dataSize.value
    ensures p.dataSize.None? ==> CalculateTotalDataSize([p]) == 0
  {
    assert [p][..0] == [];
  }

  /** The total is additive over concatenation, so each entry counts once,
      missing sizes as 0. */
  lemma {:induction false} TotalDataSizeAppend(a: seq<ParticipantSummary>, b: seq<ParticipantSummary>)
    ensures CalculateTotalDataSize(a + b) == CalculateTotalDataSize(a) + CalculateTotalDataSize(b)
    decreases |b|
  {
    if |b| > 0 {
      var b' := b[..|b| - 1];
      assert (a + b)[..|a + b| - 1] == a + b';
      TotalDataSizeAppend(a, b');
    } else {
      assert a + b == a;
    }
  }

  /** The reduce in getOldestDataDate: the entry kept is a minimum of
      completedAt, and the first one on ties (the comparison is strict). */
  function OldestIndex(allData: seq<ParticipantSummary>): (i: nat)
    requires |allData| > 0
    ensures i < |allData|
    ensures forall j :: 0 <= j < |allData| ==> allData[i].completedAt <= allData[j].completedAt
    ensures forall j :: 0 <= j < i ==> allData[j].completedAt > allData[i].completedAt
  {
    if |allData| == 1 then 0
    else
      var o := OldestIndex(allData[..|allData| - 1]);
      assert forall j :: 0 <= j < |allData| - 1 ==> allData[..|allData| - 1][j] == allData[j];
      if allData[|allData| - 1].completedAt < allData[o].completedAt then |allData| - 1 else o
  }

  /** No entry completed before entry i. */
  predicate IsEarliest(allData: seq<ParticipantSummary>, i: nat)
    requires i < |allData|
  {
    forall j :: 0 <= j < |allData| ==> allData[i].completedAt <= allData[j].completedAt
  }

  /** 'Today' for 0, otherwise "n day ago" with an 's' when n > 1. */
  function DaysAgoText(daysAgo: int): (s: string)
    ensures s == "Today" <==> daysAgo == 0
  {
    if daysAgo == 0 then "Today"
    else IntToString(daysAgo) + " day" + (if daysAgo > 1 then "s" else "") + " ago"
  }

  /** The wording of every other count: singular for 1, plural above, and the
      singular again, after a minus sign, for a negative count. */
  lemma DaysAgoWording(daysAgo: int)
    ensures daysAgo == 1 ==> DaysAgoText(daysAgo) == "1 day ago"
    ensures daysAgo > 1 ==> DaysAgoText(daysAgo) == NatToString(daysAgo) + " days ago"
    ensures daysAgo < 0 ==> DaysAgoText(daysAgo) == "-" + NatToString(-daysAgo) + " day ago"
  {
  }

  /** getOldestDataDate: 'None' for no data, otherwise the age in whole days
      (rounded down) of the oldest entry. */
  function GetOldestDataDate(allData: seq<ParticipantSummary>, now: int): (s: string)
    ensures s == "None" <==> |allData| == 0
    ensures forall i :: 0 <= i < |allData| && IsEarliest(allData, i) ==>
              s == DaysAgoText(FloorDays(now - allData[i].completedAt))
  {
    if |allData| == 0 then "None"
    else
      var o := OldestIndex(allData);
      EarliestShareAge(allData, o, now);
      DaysAgoNotNone(FloorDays(now - allData[o].completedAt));
      DaysAgoText(FloorDays(now - allData[o].completedAt))
  }

  /** An age text never reads 'None': it is 'Today' or ends in " ago". */
  lemma DaysAgoNotNone(daysAgo: int)
    ensures DaysAgoText(daysAgo) != "None"
  {
    var s := DaysAgoText(daysAgo);
    if daysAgo != 0 {
      assert s[|s| - 1] == 'o';
    }
  }

  /** All earliest entries completed at the same time, so they read the same age. */
  lemma EarliestShareAge(allData: seq<ParticipantSummary>, o: nat, now: int)
    requires o < |allData| && IsEarliest(allData, o)
    ensures forall i :: 0 <= i < |allData| && IsEarliest(allData, i) ==>
              DaysAgoText(FloorDays(now - allData[i].completedAt))
              == DaysAgoText(FloorDays(now - allData[o].completedAt))
  {
    forall i | 0 <= i < |allData| && IsEarliest(allData, i)
      ensures DaysAgoText(FloorDays(now - allData[i].completedAt))
              == DaysAgoText(FloorDays(now - allData[o].completedAt))
    {
      assert allData[i].completedAt == allData[o].completedAt;
    }
  }

  /** One entry a day old reads "1 day ago", two days "2 days ago". */
  lemma OldestDataDateWording(p: ParticipantSummary, now: int)
    ensures now - p.completedAt == DAY ==> GetOldestDataDate([p], now) == "1 day ago"
    ensures now - p.completedAt == 2 * DAY ==> GetOldestDataDate([p], now) == "2 days ago"
  {
    assert OldestIndex([p]) == 0;
    if now - p.completedAt == DAY {
      assert FloorDays(now - p.completedAt) == 1;
    }
    if now - p.completedAt == 2 * DAY {
      assert FloorDays(now - p.completedAt) == 2;
      DaysAgoWording(2);
      assert NatToString(2) == "2";
    }
  }

  /** formatDate; the locale rendering of the date is a parameter. */
  function FormatDate(completedAt: int, now: int, localeDate: string): (s: string)
    ensures 0 <= now - completedAt < DAY ==> s == "Today"
    ensures DAY <= now - completedAt < 2 * DAY ==> s == "Yesterday"
    ensures 2 * DAY <= now - completedAt < 7 * DAY ==>
              s == NatToString(FloorDays(now - completedAt)) + " days ago"
    ensures now - completedAt >= 7 * DAY ==> s == localeDate
    ensures now - completedAt < 0 ==>
              s == "-" + NatToString(-FloorDays(now - completedAt)) + " days ago"
  {
    var diffDays := FloorDays(now - completedAt);
    if diffDays == 0 then "Today"
    else if diffDays == 1 then "Yesterday"
    else if diffDays < 7 then IntToString(diffDays) + " days ago"
    else localeDate
  }

  /** A time stamp in the future falls into the "days ago" branch with a
      negative count: one millisecond ahead reads "-1 days ago". */
  lemma FormatDateFuture(completedAt: int, localeDate: string)
    ensures FormatDate(completedAt + 1, completedAt, localeDate) == "-1 days ago"
  {
    assert FloorDays(-1) == -1;
  }

  /** A row of the experiments table as the clean-up passes select it. */
  datatype ExperimentRow = ExperimentRow(
    participantId: string,
    completedAt: int,
    csvTrialPath: Option<string>,
    csvMousePath: Option<string>,
    heatmapZipPath: Option<string>,
    filesStored: bool)

  /** A path counts when it is truthy: present and not the empty string. */
  predicate Present(path: Option<string>)
  {
    path.Some? && path.value != ""
  }

  /** The one-element list a truthy path contributes, otherwise nothing. */
  function Keep(path: Option<string>): (kept: seq<string>)
    ensures |kept| <= 1
    ensures |kept| == 1 <==> Present(path)
    ensures forall s :: s in kept ==> s == path.value && s != ""
  {
    if Present(path) then [path.value] else []
  }

  /** The paths of a row that clearAllData removes, in the order trial, mouse, heatmap. */
  function PathsOf(row: ExperimentRow): (paths: seq<string>)
    ensures forall k :: 0 <= k < |paths| ==> paths[k] != ""
    ensures |paths| == 0 <==> !Present(row.csvTrialPath) && !Present(row.csvMousePath) && !Present(row.heatmapZipPath)
  {
    Keep(row.csvTrialPath) + Keep(row.csvMousePath) + Keep(row.heatmapZipPath)
  }

  /** filesToDelete in clearAllData, built by push. */
  method FilesToDelete(row: ExperimentRow) returns (filesToDelete: seq<string>)
    ensures filesToDelete == PathsOf(row)
    ensures |filesToDelete| <= 3
  {
    filesToDelete := [];
    if Present(row.csvTrialPath) {
      filesToDelete := filesToDelete + [row.csvTrialPath.value];
    }
    if Present(row.csvMousePath) {
      filesToDelete := filesToDelete + [row.csvMousePath.value];
    }
    if Present(row.heatmapZipPath) {
      filesToDelete := filesToDelete + [row.heatmapZipPath.value];
    }
  }

  /** Each path of the row in order, and only those. */
  lemma PathsOfOrder(row: ExperimentRow)
    requires Present(row.csvTrialPath) && Present(row.csvMousePath) && Present(row.heatmapZipPath)
    ensures PathsOf(row) == [row.csvTrialPath.value, row.csvMousePath.value, row.heatmapZipPath.value]
  {
  }

  // ---- cleanupExpiredData -------------------------------------------------------

  /** The rows the select with `.lt('completed_at', cutoff)` returns. */
  function ExpiredRows(table: seq<ExperimentRow>, now: int): (rows: seq<ExperimentRow>)
    ensures |rows| <= |table|
    ensures forall k :: 0 <= k < |rows| ==> IsExpired(rows[k].completedAt, now)
  {
    if |table| == 0 then []
    else
      var rest := ExpiredRows(table[..|table| - 1], now);
      var last := table[|table| - 1];
      if IsExpired(last.completedAt, now) then rest + [last] else rest
  }

  /** The rows the delete with the same cutoff leaves behind. */
  function SurvivingRows(table: seq<ExperimentRow>, now: int): (rows: seq<ExperimentRow>)
    ensures |rows| <= |table|
    ensures forall k :: 0 <= k < |rows| ==> !IsExpired(rows[k].completedAt, now)
  {
    if |table| == 0 then []
    else
      var rest := SurvivingRows(table[..|table| - 1], now);
      var last := table[|table| - 1];
      if IsExpired(last.completedAt, now) then rest else rest + [last]
  }

  /** The select returns every copy of an expired row and nothing else. */
  lemma {:induction false} ExpiredRowsExactly(table: seq<ExperimentRow>, now: int)
    ensures forall r :: multiset(ExpiredRows(table, now))[r]
                        == if IsExpired(r.completedAt, now) then multiset(table)[r] else 0
  {
    if |table| > 0 {
      var init := table[..|table| - 1];
      ExpiredRowsExactly(init, now);
      assert table == init + [table[|table| - 1]];
    }
  }

  /** The delete leaves every copy of an unexpired row and nothing else. */
  lemma {:induction false} SurvivingRowsExactly(table: seq<ExperimentRow>, now: int)
    ensures forall r :: multiset(SurvivingRows(table, now))[r]
                        == if IsExpired(r.completedAt, now) then 0 else multiset(table)[r]
  {
    if |table| > 0 {
      var init := table[..|table| - 1];
      SurvivingRowsExactly(init, now);
      assert table == init + [table[|table| - 1]];
    }
  }

  /** Every row is either selected for deletion or kept, never both: a row is
      selected exactly when it is expired and kept exactly when it is not. */
  lemma CleanupPartitions(table: seq<ExperimentRow>, now: int)
    ensures forall r :: r in ExpiredRows(table, now) <==> r in table && IsExpired(r.completedAt, now)
    ensures forall r :: r in SurvivingRows(table, now) <==> r in table && !IsExpired(r.completedAt, now)
    ensures multiset(ExpiredRows(table, now)) + multiset(SurvivingRows(table, now)) == multiset(table)
    ensures |ExpiredRows(table, now)| + |SurvivingRows(table, now)| == |table|
    ensures |ExpiredRows(table, now)| == 0 ==> SurvivingRows(table, now) == table
  {
    ExpiredRowsExactly(table, now);
    SurvivingRowsExactly(table, now);
    var e, s := ExpiredRows(table, now), SurvivingRows(table, now);
    forall r
      ensures r in e <==> r in table && IsExpired(r.completedAt, now)
      ensures r in s <==> r in table && !IsExpired(r.completedAt, now)
    {
      assert r in e <==> multiset(e)[r] > 0;
      assert r in s <==> multiset(s)[r] > 0;
      assert r in table <==> multiset(table)[r] > 0;
    }
    assert multiset(e) + multiset(s) == multiset(table);
    assert |multiset(e) + multiset(s)| == |multiset(table)|;
    if |e| == 0 {
      assert multiset(s) == multiset(table);
      SurvivorsAreAll(table, now);
    }
  }

  /** With nothing expired the delete leaves the table as it was. */
  lemma {:induction false} SurvivorsAreAll(table: seq<ExperimentRow>, now: int)
    requires |ExpiredRows(table, now)| == 0
    ensures SurvivingRows(table, now) == table
  {
    if |table| > 0 {
      var init, last := table[..|table| - 1], table[|table| - 1];
      assert !IsExpired(last.completedAt, now) && ExpiredRows(table, now) == ExpiredRows(init, now);
      SurvivorsAreAll(init, now);
      assert SurvivingRows(table, now) == init + [last];
      assert table == init + [last];
    }
  }

  /** Rows whose files are marked stored. */
  function CountFilesStored(rows: seq<ExperimentRow>): (n: nat)
    ensures n <= |rows|
  {
    if |rows| == 0 then 0
    else CountFilesStored(rows[..|rows| - 1]) + (if rows[|rows| - 1].filesStored then 1 else 0)
  }

  /** The removal calls of one row that return, given the paths whose removal
      throws: the row's paths in order, up to the first that throws. */
  function UntilThrow(paths: seq<string>, throwing: set<string>): (done: seq<string>)
    ensures done <= paths
    ensures forall k :: 0 <= k < |done| ==> done[k] !in throwing
    ensures |done| < |paths| ==> paths[|done|] in throwing
  {
    if |paths| == 0 || paths[0] in throwing then []
    else [paths[0]] + UntilThrow(paths[1..], throwing)
  }

  /** Removing two lists in turn: the second is reached only when none of the
      first throws. */
  lemma {:induction false} UntilThrowAppend(xs: seq<string>, ys: seq<string>, throwing: set<string>)
    ensures UntilThrow(xs + ys, throwing)
            == if UntilThrow(xs, throwing) == xs then xs + UntilThrow(ys, throwing) else UntilThrow(xs, throwing)
  {
    if |xs| > 0 && xs[0] !in throwing {
      assert (xs + ys)[1..] == xs[1..] + ys;
      UntilThrowAppend(xs[1..], ys, throwing);
      assert [xs[0]] + xs[1..] == xs;
    } else if |xs| == 0 {
      assert xs + ys == ys;
    }
  }

  /** Nothing throws: every path is removed. */
  lemma {:induction false} NoThrowRemovesAll(paths: seq<string>)
    ensures UntilThrow(paths, {}) == paths
  {
    if |paths| > 0 {
      NoThrowRemovesAll(paths[1..]);
      assert [paths[0]] + paths[1..] == paths;
    }
  }

  /** A row whose files are stored counts in filesCleanedCount when none of its
      removals throws. */
  predicate CleanedWithout(row: ExperimentRow, throwing: set<string>)
  {
    row.filesStored && UntilThrow(PathsOf(row), throwing) == PathsOf(row)
  }

  /** filesCleanedCount of one clean-up pass. */
  function CountCleanedRows(rows: seq<ExperimentRow>, throwing: set<string>): (n: nat)
    ensures n <= CountFilesStored(rows)
  {
    if |rows| == 0 then 0
    else CountCleanedRows(rows[..|rows| - 1], throwing) + (if CleanedWithout(rows[|rows| - 1], throwing) then 1 else 0)
  }

  /** The storage removals of one pass that return: each row with stored files
      removes its truthy paths until one throws. */
  function StoredPaths(rows: seq<ExperimentRow>, throwing: set<string>): seq<string>
  {
    if |rows| == 0 then []
    else StoredPaths(rows[..|rows| - 1], throwing)
         + (if rows[|rows| - 1].filesStored then UntilThrow(PathsOf(rows[|rows| - 1]), throwing) else [])
  }

  /** No removal names an empty path. */
  lemma {:induction false} StoredPathsNonEmpty(rows: seq<ExperimentRow>, throwing: set<string>)
    ensures forall k :: 0 <= k < |StoredPaths(rows, throwing)| ==> StoredPaths(rows, throwing)[k] != ""
  {
    if |rows| > 0 {
      StoredPathsNonEmpty(rows[..|rows| - 1], throwing);
      var row := rows[|rows| - 1];
      var done := UntilThrow(PathsOf(row), throwing);
      assert forall k :: 0 <= k < |done| ==> done[k] == PathsOf(row)[k];
    }
  }

  /** When no removal throws, every row with stored files is counted, whatever
      its removals report. */
  lemma {:induction false} NoThrowCountsStored(rows: seq<ExperimentRow>)
    ensures CountCleanedRows(rows, {}) == CountFilesStored(rows)
  {
    if |rows| > 0 {
      NoThrowCountsStored(rows[..|rows| - 1]);
      NoThrowRemovesAll(PathsOf(rows[|rows| - 1]));
    }
  }

  /** One single-path storage removal of cleanupExpiredData, made only for a
      truthy path and only while no earlier removal of the row has thrown. */
  method RemoveIfPresent(done: seq<string>, threw: bool, path: Option<string>, throwing: set<string>)
    returns (doneAfter: seq<string>, threwAfter: bool)
    ensures threw ==> doneAfter == done && threwAfter
    ensures !threw && Present(path) && path.value in throwing ==> doneAfter == done && threwAfter
    ensures !threw && !(Present(path) && path.value in throwing) ==> doneAfter == done + Keep(path) && !threwAfter
  {
    doneAfter, threwAfter := done, threw;
    if !threw && Present(path) {
      if path.value in throwing {
        threwAfter := true;
      } else {
        doneAfter := done + [path.value];
      }
    }
  }

  /** The removals of one single path, as UntilThrow sees them. */
  lemma UntilThrowKeep(path: Option<string>, throwing: set<string>)
    ensures UntilThrow(Keep(path), throwing)
            == if Present(path) && path.value in throwing then [] else Keep(path)
  {
  }

  /** The try block of one expired row with stored files: its three guarded
      removals, and whether the count is reached. */
  method CleanRowFiles(row: ExperimentRow, throwing: set<string>) returns (done: seq<string>, counted: bool)
    ensures done == UntilThrow(PathsOf(row), throwing)
    ensures counted <==> done == PathsOf(row)
  {
    var t, m, h := Keep(row.csvTrialPath), Keep(row.csvMousePath), Keep(row.heatmapZipPath);
    UntilThrowKeep(row.csvTrialPath, throwing);
    UntilThrowKeep(row.csvMousePath, throwing);
    UntilThrowKeep(row.heatmapZipPath, throwing);
    UntilThrowAppend(t, m, throwing);
    UntilThrowAppend(t + m, h, throwing);
    var threw := false;
    done := [];
    done, threw := RemoveIfPresent(done, threw, row.csvTrialPath, throwing);
    assert done == UntilThrow(t, throwing) && (threw <==> done != t);
    done, threw := RemoveIfPresent(done, threw, row.csvMousePath, throwing);
    assert done == UntilThrow(t + m, throwing) && (threw <==> done != t + m);
    done, threw := RemoveIfPresent(done, threw, row.heatmapZipPath, throwing);
    counted := !threw;
  }

  /** cleanupExpiredData with working database queries: the expired rows are
      selected; for each one with stored files its truthy paths are removed one
      call at a time, and the row is counted whatever the removals report,
      unless a removal throws (`throwing` names those paths), which skips the
      rest of that row and its count; then the expired rows are deleted. With
      nothing expired it returns early. */
  method CleanupExpiredData(table: seq<ExperimentRow>, now: int, throwing: set<string>)
    returns (expiredCount: nat, filesCleanedCount: nat, removed: seq<string>, remaining: seq<ExperimentRow>)
    ensures expiredCount == |ExpiredRows(table, now)|
    ensures filesCleanedCount == CountCleanedRows(ExpiredRows(table, now), throwing)
    ensures removed == StoredPaths(ExpiredRows(table, now), throwing)
    ensures remaining == SurvivingRows(table, now)
  {
    var expiredData := ExpiredRows(table, now);
    expiredCount := |expiredData|;
    filesCleanedCount := 0;
    removed := [];
    if expiredCount == 0 {
      CleanupPartitions(table, now);
      remaining := table;
      return;
    }
    for i := 0 to |expiredData|
      invariant filesCleanedCount == CountCleanedRows(expiredData[..i], throwing)
      invariant removed == StoredPaths(expiredData[..i], throwing)
    {
      var row := expiredData[i];
      assert expiredData[..i + 1][..i] == expiredData[..i];
      if row.filesStored {
        var done, counted := CleanRowFiles(row, throwing);
        removed := removed + done;
        if counted {
          filesCleanedCount := filesCleanedCount + 1;
        }
      }
    }
    assert expiredData[..|expiredData|] == expiredData;
    remaining := SurvivingRows(table, now);
  }

  // ---- clearAllData -------------------------------------------------------------

  /** The placeholder id of `.neq('participant_id', ...)` in the delete-all query. */
  const NeverMatchingId: string := "this-will-never-match-anything"

  /** The rows that delete-all keeps: those whose id equals the placeholder. */
  function RowsKeptByClearAll(table: seq<ExperimentRow>): (rows: seq<ExperimentRow>)
    ensures forall k :: 0 <= k < |rows| ==> rows[k].participantId == NeverMatchingId
  {
    if |table| == 0 then []
    else
      var rest := RowsKeptByClearAll(table[..|table| - 1]);
      if table[|table| - 1].participantId == NeverMatchingId then rest + [table[|table| - 1]] else rest
  }

  /** A row is batched for removal when its files are stored and it has a path. */
  predicate HasBatch(row: ExperimentRow)
  {
    row.filesStored && |PathsOf(row)| > 0
  }

  /** The removal batches of clearAllData over the first n rows: one call
      per row with a batch. */
  function Batches(rows: seq<ExperimentRow>, n: nat): (bs: seq<seq<string>>)
    requires n <= |rows|
    ensures forall k :: 0 <= k < |bs| ==> 0 < |bs[k]| <= 3
  {
    if n == 0 then []
    else Batches(rows, n - 1) + (if HasBatch(rows[n - 1]) then [PathsOf(rows[n - 1])] else [])
  }

  /** Rows among the first n that have a batch. */
  function CountBatched(rows: seq<ExperimentRow>, n: nat): (count: nat)
    requires n <= |rows|
    ensures count <= n
  {
    if n == 0 then 0 else CountBatched(rows, n - 1) + (if HasBatch(rows[n - 1]) then 1 else 0)
  }

  /** Each batch is the path list of a row with a batch. */
  lemma {:induction false} BatchesFromRows(rows: seq<ExperimentRow>, n: nat)
    requires n <= |rows|
    ensures |Batches(rows, n)| == CountBatched(rows, n)
    ensures forall b :: b in Batches(rows, n) ==>
              exists i :: 0 <= i < n && HasBatch(rows[i]) && b == PathsOf(rows[i])
  {
    if n > 0 {
      BatchesFromRows(rows, n - 1);
      forall b | b in Batches(rows, n)
        ensures exists i :: 0 <= i < n && HasBatch(rows[i]) && b == PathsOf(rows[i])
      {
        if b !in Batches(rows, n - 1) {
          assert HasBatch(rows[n - 1]) && b == PathsOf(rows[n - 1]);
        }
      }
    }
  }

  /** Each row with a batch contributes its path list. */
  lemma {:induction false} RowsGiveBatches(rows: seq<ExperimentRow>, n: nat)
    requires n <= |rows|
    ensures forall i :: 0 <= i < n && HasBatch(rows[i]) ==> PathsOf(rows[i]) in Batches(rows, n)
  {
    if n > 0 {
      RowsGiveBatches(rows, n - 1);
      if HasBatch(rows[n - 1]) {
        assert Batches(rows, n)[|Batches(rows, n - 1)|] == PathsOf(rows[n - 1]);
      }
    }
  }

  /** There is one batch per row with a batch, and the batches are exactly
      those rows' path lists. */
  lemma BatchesExactly(rows: seq<ExperimentRow>, n: nat)
    requires n <= |rows|
    ensures |Batches(rows, n)| == CountBatched(rows, n)
    ensures forall b :: b in Batches(rows, n) <==>
              exists i :: 0 <= i < n && HasBatch(rows[i]) && b == PathsOf(rows[i])
  {
    BatchesFromRows(rows, n);
    RowsGiveBatches(rows, n);
  }

  /** Rows among the first n counted by clearAllData: a batch whose removal
      reported no error. */
  function CountCleared(rows: seq<ExperimentRow>, removeFails: seq<bool>, n: nat): (count: nat)
    requires |removeFails| == |rows| && n <= |rows|
    ensures count <= n
  {
    if n == 0 then 0
    else CountCleared(rows, removeFails, n - 1) + (if HasBatch(rows[n - 1]) && !removeFails[n - 1] then 1 else 0)
  }

  /** Every batch whose removal succeeds is counted, and nothing else. */
  lemma {:induction false} ClearedAtMostBatched(rows: seq<ExperimentRow>, removeFails: seq<bool>, n: nat)
    requires |removeFails| == |rows| && n <= |rows|
    ensures CountCleared(rows, removeFails, n) <= CountBatched(rows, n)
    ensures (forall i :: 0 <= i < n ==> !removeFails[i]) ==> CountCleared(rows, removeFails, n) == CountBatched(rows, n)
  {
    if n > 0 {
      ClearedAtMostBatched(rows, removeFails, n - 1);
    }
  }

  /** One row of clearAllData's loop: its removal batch, if any, and whether
      it is counted as cleaned. */
  method ClearRow(row: ExperimentRow, removeFails: bool) returns (batch: seq<seq<string>>, cleared: nat)
    ensures batch == (if HasBatch(row) then [PathsOf(row)] else [])
    ensures cleared == (if HasBatch(row) && !removeFails then 1 else 0)
  {
    batch := [];
    cleared := 0;
    if row.filesStored {
      var filesToDelete := FilesToDelete(row);
      if |filesToDelete| > 0 {
        batch := [filesToDelete];
        if !removeFails {
          cleared := 1;
        }
      }
    }
  }

  /** clearAllData's storage loop over every row. */
  method ClearAllFiles(table: seq<ExperimentRow>, removeFails: seq<bool>)
    returns (filesCleanedCount: nat, batches: seq<seq<string>>)
    requires |removeFails| == |table|
    ensures filesCleanedCount == CountCleared(table, removeFails, |table|)
    ensures batches == Batches(table, |table|)
  {
    filesCleanedCount := 0;
    batches := [];
    for i := 0 to |table|
      invariant filesCleanedCount == CountCleared(table, removeFails, i)
      invariant batches == Batches(table, i)
    {
      var batch, cleared := ClearRow(table[i], removeFails[i]);
      batches := batches + batch;
      filesCleanedCount := filesCleanedCount + cleared;
    }
  }

  /** clearAllData with a working database: two confirmations, then one
      removal per row with stored files and a path (removeFails[i] says
      whether that call reported an error or threw), counting the ones that
      did not, then the delete-all query. */
  method ClearAllData(table: seq<ExperimentRow>, firstConfirm: bool, secondConfirm: bool, removeFails: seq<bool>)
    returns (totalCount: nat, filesCleanedCount: nat, batches: seq<seq<string>>, remaining: seq<ExperimentRow>)
    requires |removeFails| == |table|
    ensures !(firstConfirm && secondConfirm) ==> totalCount == 0 && batches == [] && remaining == table
    ensures firstConfirm && secondConfirm ==>
              && totalCount == |table|
              && filesCleanedCount == CountCleared(table, removeFails, |table|)
              && batches == Batches(table, |table|)
              && remaining == (if |table| == 0 then table else RowsKeptByClearAll(table))
  {
    totalCount := 0;
    filesCleanedCount := 0;
    batches := [];
    remaining := table;
    if !firstConfirm || !secondConfirm {
      return;
    }
    totalCount := |table|;
    if totalCount == 0 {
      return;
    }
    filesCleanedCount, batches := ClearAllFiles(table, removeFails);
    remaining := RowsKeptByClearAll(table);
  }

  /** Delete-all removes every row except each copy of one whose id is the
      placeholder. */
  lemma {:induction false} ClearAllKeepsOnlyPlaceholder(table: seq<ExperimentRow>)
    ensures forall r :: multiset(RowsKeptByClearAll(table))[r]
                        == if r.participantId == NeverMatchingId then multiset(table)[r] else 0
    ensures forall r :: r in RowsKeptByClearAll(table) <==> r in table && r.participantId == NeverMatchingId
  {
    if |table| > 0 {
      var init := table[..|table| - 1];
      ClearAllKeepsOnlyPlaceholder(init);
      assert table == init + [table[|table| - 1]];
    }
    forall r
      ensures r in RowsKeptByClearAll(table) <==> r in table && r.participantId == NeverMatchingId
    {
      assert r in RowsKeptByClearAll(table) <==> multiset(RowsKeptByClearAll(table))[r] > 0;
      assert r in table <==> multiset(table)[r] > 0;
    }
  }
}
