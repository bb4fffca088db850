/** The month breakdown of `ProjectHoursView.get_context_data`
    (apps/projects/views.py): the entries the view lists are grouped by the
    month of their date; inside a month, hours are summed per username,
    the users are ordered by hours descending then name ascending, and the
    month total is the sum of the per-user sums; months come newest first.
    Hours are whole hundredths. */
module ProjectHours {
  import opened Wrappers
  import opened Dates
  import opened Assoc
  import opened Accounts
  import opened Projects
  import opened Sequences
  import opened Text

  /** A listed time entry: its date, the username of its timesheet's owner
      (none when the entry has no timesheet or the timesheet no user) and
      its hours. */
  datatype HourEntry = HourEntry(date: Date, owner: Option<string>, hours: int)

  /** The name an entry counts under: its owner's username, else `-`. */
  function UserOf(e: HourEntry): string {
    if e.owner.Some? then e.owner.value else "-"
  }

  /** A `%Y-%m` key. For four-digit years, ordering the key text is
      ordering by year, then month. */
  datatype Month = Month(year: int, month: int)

  function MonthOf(d: Date): Month {
    Month(d.year, d.month)
  }

  /** `a` sorts after `b` as a key. */
  predicate Later(a: Month, b: Month) {
    a.year > b.year || (a.year == b.year && a.month > b.month)
  }

  // ---------------------------------------------------------------------
  // Python's ordering of text

  /** `a < b` on Python strings: code point by code point, a proper prefix first. */
  predicate StrLess(a: string, b: string) {
    if |a| == 0 then |b| > 0
    else if |b| == 0 then false
    else if a[0] != b[0] then a[0] < b[0]
    else StrLess(a[1..], b[1..])
  }

  /** Exactly one of `a < b`, `a == b`, `b < a` holds. */
  lemma {:induction false} StrLessTotal(a: string, b: string)
    ensures a == b || StrLess(a, b) || StrLess(b, a)
    ensures !(StrLess(a, b) && StrLess(b, a))
    ensures !StrLess(a, a)
  {
    if |a| > 0 && |b| > 0 && a[0] == b[0] {
      StrLessTotal(a[1..], b[1..]);
      if a[1..] == b[1..] {
        assert a == [a[0]] + a[1..] && b == [b[0]] + b[1..];
      }
    }
    if |a| > 0 {
      StrLessTotal(a[1..], a[1..]);
    }
  }

  lemma {:induction false} StrLessTrans(a: string, b: string, c: string)
    requires StrLess(a, b) && StrLess(b, c)
    ensures StrLess(a, c)
  {
    if |a| > 0 && |b| > 0 && |c| > 0 && a[0] == b[0] && b[0] == c[0] {
      StrLessTrans(a[1..], b[1..], c[1..]);
    }
  }

  // ---------------------------------------------------------------------
  // The listed entries

  /** A time entry with the project it was logged against. */
  datatype LoggedEntry = LoggedEntry(project: int, entry: HourEntry)

  /** The entries as logged against project `pid`. */
  function Tagged(r: seq<HourEntry>, pid: int): (t: seq<LoggedEntry>)
    ensures |t| == |r|
    ensures forall i :: 0 <= i < |r| ==> t[i] == LoggedEntry(pid, r[i])
  {
    if |r| == 0 then [] else [LoggedEntry(pid, r[0])] + Tagged(r[1..], pid)
  }

  /** The entries logged against project `pid`, in the given order. */
  function EntriesOf(log: seq<LoggedEntry>, pid: int): (r: seq<HourEntry>)
    ensures |r| <= |log|
    ensures forall e :: e in r <==> LoggedEntry(pid, e) in log
  {
    if |log| == 0 then []
    else
      var rest := EntriesOf(log[1..], pid);
      if log[0].project == pid then [log[0].entry] + rest else rest
  }

  /** `EntriesOf` keeps exactly the project's entries: each occurs as often
      as the log holds it under `pid`. */
  lemma {:induction false} EntriesOfCounts(log: seq<LoggedEntry>, pid: int)
    ensures forall e :: multiset(EntriesOf(log, pid))[e] == multiset(log)[LoggedEntry(pid, e)]
  {
    if |log| > 0 {
      var rest := EntriesOf(log[1..], pid);
      EntriesOfCounts(log[1..], pid);
      assert log == [log[0]] + log[1..];
      assert multiset(log) == multiset{log[0]} + multiset(log[1..]);
      if log[0].project == pid {
        assert multiset(EntriesOf(log, pid)) == multiset{log[0].entry} + multiset(rest);
      }
    }
  }

  /** `EntriesOf` keeps the log's order: as logged entries they are a
      subsequence of it. */
  lemma {:induction false} EntriesOfInOrder(log: seq<LoggedEntry>, pid: int)
    ensures Subsequence(Tagged(EntriesOf(log, pid), pid), log)
  {
    if |log| > 0 {
      var rest := EntriesOf(log[1..], pid);
      EntriesOfInOrder(log[1..], pid);
      assert log == [log[0]] + log[1..];
      if log[0].project == pid {
        var r := [log[0].entry] + rest;
        assert Tagged(r, pid)[1..] == Tagged(rest, pid);
      } else {
        SubsequenceCons(Tagged(rest, pid), log[0], log[1..]);
      }
    }
  }

  /** Global permission over time entries. */
  predicate SeesAllEntries(u: User) {
    u.isSuperuser || HasPerm(u, "timesheet.view_timeentry") || HasPerm(u, "timesheet.change_timeentry")
  }

  /** `ProjectHoursView.get_queryset` with the project query read under
      `policy`: `get_project` answers 404 for a project that is missing or
      not visible to the user, and 500 when the query as written finds the
      project more than once; otherwise every entry of the project for a
      user with global permission or a visible project, and nothing
      otherwise. The log comes in `-date` order. Since the 404 has already
      ruled out an invisible project, the empty listing cannot be reached:
      whoever may open the page sees every entry logged against the
      project, with or without the time-entry permissions. */
  function HoursQuery(c: Catalog, u: User, pid: int, log: seq<LoggedEntry>, policy: JoinPolicy)
    : (r: Result<seq<HourEntry>, LookupError>)
    ensures r == Failure(NoSuchObject) <==> pid !in VisibleProjects(c, u)
    ensures r == Failure(MultipleObjects) <==> ProjectRepeats(c, u, pid, policy)
    ensures r.Success? ==> r.value == EntriesOf(log, pid)
  {
    match ProjectLookup(c, u, pid, policy)
    case NoRow => Failure(NoSuchObject)
    case ManyRows => Failure(MultipleObjects)
    case OneRow =>
      if SeesAllEntries(u) then Success(EntriesOf(log, pid))
      else if pid in VisibleProjects(c, u) then Success(EntriesOf(log, pid))
      else Success([])
  }

  // ---------------------------------------------------------------------
  // Sums

  /** What an entry adds to the breakdown: the name it counts under and its hours. */
  datatype Charge = Charge(user: string, hours: int)

  function ChargeOf(e: HourEntry): Charge {
    Charge(UserOf(e), e.hours)
  }

  /** The charges of the entries, in order. */
  function Charges(entries: seq<HourEntry>): (r: seq<Charge>)
    ensures |r| == |entries|
    ensures forall i {:trigger r[i]} :: 0 <= i < |entries| ==> r[i] == ChargeOf(entries[i])
  {
    if |entries| == 0 then [] else Charges(entries[..|entries| - 1]) + [ChargeOf(entries[|entries| - 1])]
  }

  /** The hours of the first `n` charges. */
  function TotalUpTo(cs: seq<Charge>, n: nat): int
    requires n <= |cs|
  {
    if n == 0 then 0 else TotalUpTo(cs, n - 1) + cs[n - 1].hours
  }

  /** The hours of the first `n` charges made under `u`. */
  function HoursUpTo(cs: seq<Charge>, n: nat, u: string): int
    requires n <= |cs|
  {
    if n == 0 then 0
    else HoursUpTo(cs, n - 1, u) + (if cs[n - 1].user == u then cs[n - 1].hours else 0)
  }

  /** The hours of all the entries. */
  function TotalHours(entries: seq<HourEntry>): int {
    TotalUpTo(Charges(entries), |entries|)
  }

  /** The hours of the entries that count under `u`. */
  function HoursOf(entries: seq<HourEntry>, u: string): int {
    HoursUpTo(Charges(entries), |entries|, u)
  }

  /** `sum(d.values())`. */
  function SumValues(s: seq<(string, int)>): int {
    if |s| == 0 then 0 else s[0].1 + SumValues(s[1..])
  }

  /** Writing `d[k] = v` moves the sum of the values by `v` less the old value. */
  lemma {:induction false} SumPut(s: seq<(string, int)>, k: string, v: int)
    requires DistinctKeys(s)
    ensures SumValues(Put(s, k, v)) == SumValues(s) - Get(s, k).GetOr(0) + v
  {
    if |s| > 0 && s[0].0 != k {
      SumPut(s[1..], k, v);
      assert Put(s, k, v)[1..] == Put(s[1..], k, v);
    } else if |s| > 0 {
      assert Put(s, k, v)[1..] == s[1..];
    }
  }

  // ---------------------------------------------------------------------
  // Per-user sums

  /** A name with none of the first `n` charges has summed nothing. */
  lemma {:induction false} HoursAbsent(cs: seq<Charge>, n: nat, u: string)
    requires n <= |cs|
    requires forall i :: 0 <= i < n ==> cs[i].user != u
    ensures HoursUpTo(cs, n, u) == 0
  {
    if n > 0 {
      HoursAbsent(cs, n - 1, u);
    }
  }

  /** The `per_user` loop over the first `n` charges: for each in turn, its
      name's sum (starting at 0) grows by its hours. */
  function Tally(cs: seq<Charge>, n: nat): (r: seq<(string, int)>)
    requires n <= |cs|
    ensures DistinctKeys(r)
  {
    if n == 0 then []
    else
      var acc := Tally(cs, n - 1);
      Put(acc, cs[n - 1].user, Get(acc, cs[n - 1].user).GetOr(0) + cs[n - 1].hours)
  }

  /** The names in the tally are those of the charges, each with its sum. */
  lemma {:induction false} TallyNames(cs: seq<Charge>, n: nat)
    requires n <= |cs|
    ensures forall u :: Get(Tally(cs, n), u).Some? <==> Charged(cs, n, u)
    ensures forall u :: Get(Tally(cs, n), u).Some? ==> Get(Tally(cs, n), u).value == HoursUpTo(cs, n, u)
  {
    if n > 0 {
      TallyNames(cs, n - 1);
      var acc := Tally(cs, n - 1);
      forall u
        ensures Get(Tally(cs, n), u).Some? <==> Charged(cs, n, u)
        ensures Get(Tally(cs, n), u).Some? ==> Get(Tally(cs, n), u).value == HoursUpTo(cs, n, u)
      {
        if u == cs[n - 1].user && Get(acc, u).None? {
          HoursAbsent(cs, n - 1, u);
        }
      }
    }
  }

  /** The tally's values add up to all the hours it has seen. */
  lemma {:induction false} TallyTotal(cs: seq<Charge>, n: nat)
    requires n <= |cs|
    ensures SumValues(Tally(cs, n)) == TotalUpTo(cs, n)
  {
    if n > 0 {
      var acc := Tally(cs, n - 1);
      var u := cs[n - 1].user;
      var h := cs[n - 1].hours;
      TallyTotal(cs, n - 1);
      SumPut(acc, u, Get(acc, u).GetOr(0) + h);
    }
  }

  /** The `per_user` dictionary of a list of entries: each user with an
      entry once, with the sum of that user's hours; its values add up to
      all the hours, which is the month total. */
  function PerUser(entries: seq<HourEntry>): (r: seq<(string, int)>)
    ensures DistinctKeys(r)
    ensures forall u :: Get(r, u).Some? <==> exists i :: 0 <= i < |entries| && UserOf(entries[i]) == u
    ensures forall u :: Get(r, u).Some? ==> Get(r, u).value == HoursOf(entries, u)
    ensures SumValues(r) == TotalHours(entries)
  {
    var cs := Charges(entries);
    TallyNames(cs, |entries|);
    TallyTotal(cs, |entries|);
    forall u
      ensures Get(Tally(cs, |entries|), u).Some? <==> exists i :: 0 <= i < |entries| && UserOf(entries[i]) == u
    {
      NamesOfCharges(entries, u);
    }
    Tally(cs, |entries|)
  }

  /** Some of the first `n` charges are under `u`. */
  predicate Charged(cs: seq<Charge>, n: nat, u: string)
    requires n <= |cs|
  {
    exists i :: 0 <= i < n && cs[i].user == u
  }

  /** A name has a charge exactly when some entry counts under it. */
  lemma NamesOfCharges(entries: seq<HourEntry>, u: string)
    ensures Charged(Charges(entries), |entries|, u) <==> exists i :: 0 <= i < |entries| && UserOf(entries[i]) == u
  {
    var cs := Charges(entries);
    if exists i :: 0 <= i < |entries| && UserOf(entries[i]) == u {
      var i :| 0 <= i < |entries| && UserOf(entries[i]) == u;
      assert cs[i].user == u;
    }
  }

  // ---------------------------------------------------------------------
  // Ordering the users

  /** The sort key `(-hours, user)`: `a` comes before `b`. */
  predicate Ahead(a: (string, int), b: (string, int)) {
    a.1 > b.1 || (a.1 == b.1 && StrLess(a.0, b.0))
  }

  predicate SortedUsers(s: seq<(string, int)>) {
    forall i :: 0 <= i < |s| - 1 ==> Ahead(s[i], s[i + 1])
  }

  /** Inserting one user into a sorted list of other users. */
  function InsertUser(x: (string, int), s: seq<(string, int)>): (r: seq<(string, int)>)
    requires SortedUsers(s)
    requires forall y :: y in s ==> y.0 != x.0
    ensures SortedUsers(r)
    ensures multiset(r) == multiset(s) + multiset{x}
    ensures |r| > 0 && (r[0] == x || (|s| > 0 && r[0] == s[0]))
    ensures SumValues(r) == x.1 + SumValues(s)
  {
    if |s| == 0 then [x]
    else
      StrLessTotal(x.0, s[0].0);
      if Ahead(x, s[0]) then [x] + s
      else
        var rest := InsertUser(x, s[1..]);
        var r := [s[0]] + rest;
        assert r[1..] == rest;
        assert s == [s[0]] + s[1..];
        r
  }

  /** `per_user.sort(key=lambda x: (-x['hours'], x['user']))` on users that
      are all distinct: the same pairs, in key order, with the same sum. */
  function SortUsers(s: seq<(string, int)>): (r: seq<(string, int)>)
    requires DistinctKeys(s)
    ensures SortedUsers(r)
    ensures multiset(r) == multiset(s)
    ensures SumValues(r) == SumValues(s)
  {
    if |s| == 0 then []
    else
      DistinctTail(s);
      var rest := SortUsers(s[1..]);
      HeadKeyFresh(s, rest);
      assert s == [s[0]] + s[1..];
      InsertUser(s[0], rest)
  }

  lemma DistinctTail(s: seq<(string, int)>)
    requires DistinctKeys(s) && |s| > 0
    ensures DistinctKeys(s[1..])
  {
    forall i, j | 0 <= i < j < |s[1..]|
      ensures s[1..][i].0 != s[1..][j].0
    {
      assert s[1..][i] == s[i + 1] && s[1..][j] == s[j + 1];
    }
  }

  /** The first key of a list with distinct keys is not among the rest,
      however the rest is rearranged. */
  lemma HeadKeyFresh(s: seq<(string, int)>, rest: seq<(string, int)>)
    requires DistinctKeys(s) && |s| > 0
    requires multiset(rest) == multiset(s[1..])
    ensures forall y :: y in rest ==> y.0 != s[0].0
  {
    forall y | y in rest
      ensures y.0 != s[0].0
    {
      assert y in multiset(s[1..]);
      var j :| 0 <= j < |s[1..]| && s[1..][j] == y;
      assert s[j + 1] == y;
    }
  }

  /** `Ahead` is transitive, so a list sorted pair by pair is sorted throughout. */
  lemma {:induction false} SortedUsersPairwise(s: seq<(string, int)>, i: int, j: int)
    requires SortedUsers(s) && 0 <= i < j < |s|
    ensures Ahead(s[i], s[j])
  {
    if j > i + 1 {
      SortedUsersPairwise(s, i, j - 1);
      var a, b, c := s[i], s[j - 1], s[j];
      if a.1 == b.1 && b.1 == c.1 {
        StrLessTrans(a.0, b.0, c.0);
      }
    }
  }

  // ---------------------------------------------------------------------
  // Months

  /** Some entry falls in month `m`. */
  predicate HasEntryIn(entries: seq<HourEntry>, m: Month) {
    exists i :: 0 <= i < |entries| && MonthOf(entries[i].date) == m
  }

  /** The months of the first `n` entries, each once, by first appearance. */
  function MonthsUpTo(entries: seq<HourEntry>, n: nat): (r: seq<Month>)
    requires n <= |entries|
    ensures forall i, j :: 0 <= i < j < |r| ==> r[i] != r[j]
    ensures forall m :: m in r <==> exists i :: 0 <= i < n && MonthOf(entries[i].date) == m
  {
    if n == 0 then []
    else
      var ms := MonthsUpTo(entries, n - 1);
      var m := MonthOf(entries[n - 1].date);
      if m in ms then ms else ms + [m]
  }

  /** The months of the entries, each once, by first appearance (the keys
      of the `grouped` dictionary). */
  function MonthsOf(entries: seq<HourEntry>): (r: seq<Month>)
    ensures forall i, j :: 0 <= i < j < |r| ==> r[i] != r[j]
    ensures forall m :: m in r <==> HasEntryIn(entries, m)
  {
    MonthsUpTo(entries, |entries|)
  }

  /** Months strictly newest first. */
  predicate Descending(ms: seq<Month>) {
    forall i :: 0 <= i < |ms| - 1 ==> Later(ms[i], ms[i + 1])
  }

  function InsertMonth(m: Month, ms: seq<Month>): (r: seq<Month>)
    requires Descending(ms) && m !in ms
    ensures Descending(r)
    ensures multiset(r) == multiset(ms) + multiset{m}
    ensures |r| > 0 && (r[0] == m || (|ms| > 0 && r[0] == ms[0]))
  {
    if |ms| == 0 then [m]
    else if Later(m, ms[0]) then [m] + ms
    else
      var tail := ms[1..];
      assert ms == [ms[0]] + tail;
      var rest := InsertMonth(m, tail);
      assert Later(ms[0], rest[0]);
      [ms[0]] + rest
  }

  /** `month_groups.sort(key=..., reverse=True)` on distinct months. */
  function SortMonths(ms: seq<Month>): (r: seq<Month>)
    requires forall i, j :: 0 <= i < j < |ms| ==> ms[i] != ms[j]
    ensures Descending(r)
    ensures multiset(r) == multiset(ms)
  {
    if |ms| == 0 then []
    else
      var tail := ms[1..];
      assert ms == [ms[0]] + tail;
      var rest := SortMonths(tail);
      assert ms[0] !in rest by {
        assert ms[0] !in tail;
        assert ms[0] !in multiset(rest);
      }
      InsertMonth(ms[0], rest)
  }

  // ---------------------------------------------------------------------
  // Month groups

  /** The entries of one month, in listing order. */
  function InMonth(entries: seq<HourEntry>, m: Month): (r: seq<HourEntry>)
    ensures forall e :: e in r <==> e in entries && MonthOf(e.date) == m
    ensures forall e :: multiset(r)[e] == if MonthOf(e.date) == m then multiset(entries)[e] else 0
    ensures Subsequence(r, entries)
  {
    if |entries| == 0 then []
    else
      var init := entries[..|entries| - 1];
      var last := entries[|entries| - 1];
      var rest := InMonth(init, m);
      assert entries == init + [last];
      if MonthOf(last.date) == m then
        SubsequenceSnocBoth(rest, init, last);
        assert rest + [last] == rest + (if MonthOf(last.date) == m then [last] else []);
        rest + [last]
      else
        SubsequenceSnoc(rest, init, last);
        assert rest == rest + (if MonthOf(last.date) == m then [last] else []);
        rest
  }

  /** One entry of `month_groups`. */
  datatype MonthGroup = MonthGroup(key: Month, entries: seq<HourEntry>, perUser: seq<(string, int)>, total: int)

  /** The group of month `m`. */
  function GroupOf(entries: seq<HourEntry>, m: Month): (g: MonthGroup)
    ensures g.key == m
    ensures forall e :: e in g.entries <==> e in entries && MonthOf(e.date) == m
    ensures forall e :: multiset(g.entries)[e] == if MonthOf(e.date) == m then multiset(entries)[e] else 0
    ensures Subsequence(g.entries, entries)
    ensures SortedUsers(g.perUser)
    ensures g.total == TotalHours(g.entries) == SumValues(g.perUser)
  {
    var inMonth := InMonth(entries, m);
    var perUser := PerUser(inMonth);
    MonthGroup(m, inMonth, SortUsers(perUser), SumValues(perUser))
  }

  /** Each pair in a month's per-user list is a user with an entry that
      month and the sum of that user's hours in it. */
  lemma PerUserSums(entries: seq<HourEntry>, m: Month, k: int)
    requires 0 <= k < |GroupOf(entries, m).perUser|
    ensures var g := GroupOf(entries, m);
      && g.perUser[k].1 == HoursOf(g.entries, g.perUser[k].0)
      && exists i :: 0 <= i < |g.entries| && UserOf(g.entries[i]) == g.perUser[k].0
  {
    var g := GroupOf(entries, m);
    var raw := PerUser(g.entries);
    assert g.perUser[k] in multiset(raw);
    var i :| 0 <= i < |raw| && raw[i] == g.perUser[k];
    GetAt(raw, i);
  }

  /** Every user with an entry in a month has a pair in its per-user list. */
  lemma PerUserCovers(entries: seq<HourEntry>, m: Month, i: int)
    requires 0 <= i < |GroupOf(entries, m).entries|
    ensures var g := GroupOf(entries, m);
      exists k :: 0 <= k < |g.perUser| && g.perUser[k].0 == UserOf(g.entries[i])
  {
    var g := GroupOf(entries, m);
    var raw := PerUser(g.entries);
    var u := UserOf(g.entries[i]);
    GetSome(raw, u);
    var j :| 0 <= j < |raw| && raw[j] == (u, Get(raw, u).value);
    assert raw[j] in multiset(g.perUser);
    var k :| 0 <= k < |g.perUser| && g.perUser[k] == raw[j];
  }

  /** The groups of the given months, in that order. */
  function GroupsFor(entries: seq<HourEntry>, ms: seq<Month>): (r: seq<MonthGroup>)
    ensures |r| == |ms|
    ensures forall i :: 0 <= i < |ms| ==> r[i] == GroupOf(entries, ms[i])
  {
    if |ms| == 0 then [] else [GroupOf(entries, ms[0])] + GroupsFor(entries, ms[1..])
  }

  /** A list of groups whose keys fall month by month has all its keys in
      order, so no two groups share a month. */
  lemma {:induction false} KeysPairwise(r: seq<MonthGroup>, i: int, k: int)
    requires forall n :: 0 <= n < |r| - 1 ==> Later(r[n].key, r[n + 1].key)
    requires 0 <= i < k < |r|
    ensures Later(r[i].key, r[k].key)
  {
    if k > i + 1 {
      KeysPairwise(r, i, k - 1);
    }
  }

  /** Some group is keyed `m`. */
  predicate HasGroup(r: seq<MonthGroup>, m: Month) {
    exists i :: 0 <= i < |r| && r[i].key == m
  }

  /** `month_groups`: a group for exactly the months that have an entry,
      newest first, each made of exactly that month's entries. */
  function MonthGroups(entries: seq<HourEntry>): (r: seq<MonthGroup>)
    ensures forall i :: 0 <= i < |r| - 1 ==> Later(r[i].key, r[i + 1].key)
    ensures forall m :: HasGroup(r, m) <==> HasEntryIn(entries, m)
    ensures forall i :: 0 <= i < |r| ==> r[i] == GroupOf(entries, r[i].key)
  {
    var ms := SortMonths(MonthsOf(entries));
    var r := GroupsFor(entries, ms);
    MonthsCovered(entries, ms, r);
    r
  }

  lemma MonthsCovered(entries: seq<HourEntry>, ms: seq<Month>, r: seq<MonthGroup>)
    requires multiset(ms) == multiset(MonthsOf(entries))
    requires |r| == |ms| && forall i :: 0 <= i < |ms| ==> r[i].key == ms[i]
    ensures forall m :: HasGroup(r, m) <==> HasEntryIn(entries, m)
  {
    forall m
      ensures HasGroup(r, m) <==> HasEntryIn(entries, m)
    {
      if HasGroup(r, m) {
        var i :| 0 <= i < |r| && r[i].key == m;
        assert ms[i] in multiset(ms);
      }
      if HasEntryIn(entries, m) {
        assert m in multiset(MonthsOf(entries));
        var i :| 0 <= i < |ms| && ms[i] == m;
        assert r[i].key == m;
      }
    }
  }

  /** No two month groups share a key. */
  lemma KeysDistinct(entries: seq<HourEntry>, i: int, k: int)
    requires 0 <= i < |MonthGroups(entries)| && 0 <= k < |MonthGroups(entries)|
    requires MonthGroups(entries)[i].key == MonthGroups(entries)[k].key
    ensures i == k
  {
    var r := MonthGroups(entries);
    if i < k {
      KeysPairwise(r, i, k);
    } else if k < i {
      KeysPairwise(r, k, i);
    }
  }

  /** An entry in a group falls in the group's month. */
  lemma InGroupMonth(entries: seq<HourEntry>, i: int, e: HourEntry)
    requires 0 <= i < |MonthGroups(entries)| && e in MonthGroups(entries)[i].entries
    ensures MonthOf(e.date) == MonthGroups(entries)[i].key
  {
    var r := MonthGroups(entries);
    assert r[i] == GroupOf(entries, r[i].key);
  }

  /** An entry lands in the group of its own month. */
  lemma EntryInOwnGroup(entries: seq<HourEntry>, j: int) returns (i: int)
    requires 0 <= j < |entries|
    ensures 0 <= i < |MonthGroups(entries)| && entries[j] in MonthGroups(entries)[i].entries
  {
    var r := MonthGroups(entries);
    assert HasEntryIn(entries, MonthOf(entries[j].date));
    i :| 0 <= i < |r| && r[i].key == MonthOf(entries[j].date);
    assert r[i] == GroupOf(entries, r[i].key);
  }

  /** Every listed entry is in exactly one month group. */
  lemma EntryInOneGroup(entries: seq<HourEntry>, j: int)
    requires 0 <= j < |entries|
    ensures var r := MonthGroups(entries);
      exists i :: 0 <= i < |r| && entries[j] in r[i].entries
    ensures var r := MonthGroups(entries);
      forall i, k :: 0 <= i < |r| && 0 <= k < |r| && entries[j] in r[i].entries && entries[j] in r[k].entries ==> i == k
  {
    var r := MonthGroups(entries);
    var i := EntryInOwnGroup(entries, j);
    forall i1, k | 0 <= i1 < |r| && 0 <= k < |r| && entries[j] in r[i1].entries && entries[j] in r[k].entries
      ensures i1 == k
    {
      InGroupMonth(entries, i1, entries[j]);
      InGroupMonth(entries, k, entries[j]);
      KeysDistinct(entries, i1, k);
    }
  }

  // ---------------------------------------------------------------------
  // Pages

  /** `paginate_by` of the view. */
  const PageSize: nat := 50

  /** The paginator's `num_pages` for `n` listed entries, with no orphans and
      an empty first page allowed: one page at least, else as many pages of
      50 as the entries fill. */
  function PageCount(n: nat): (k: nat)
    ensures k >= 1
    ensures n <= k * PageSize
    ensures n > 0 ==> (k - 1) * PageSize < n
  {
    if n == 0 then 1 else (n + PageSize - 1) / PageSize
  }

  /** The page number `paginate_queryset` asks for: the `page` query value,
      1 when it is absent or empty, then `int()` of the text, and the last
      page for the text `last`; other text `int()` refuses is a 404 (`None`). */
  function PageNumber(raw: Option<string>, pages: nat): (r: Option<int>)
    ensures raw.None? || raw == Some("") ==> r == Some(1)
    ensures raw == Some("last") ==> r == Some(pages)
    ensures r.None? <==> raw.Some? && raw.value != "" && raw.value != "last" && ParseInt(raw.value).None?
  {
    if raw.None? || raw.value == "" then Some(1)
    else
      match ParseInt(raw.value)
      case Some(k) => Some(k)
      case None => if raw.value == "last" then Some(pages) else None
  }

  /** A page link, the number rendered as text, asks for that page. */
  lemma PageNumberOfRendered(n: int, pages: nat)
    ensures PageNumber(Some(IntToString(n)), pages) == Some(n)
  {
    ParseIntOfString(n);
  }

  /** Page `k` of the listing: the entries from position 50(k-1) on, 50 of
      them on every page but the last. */
  function Slice(entries: seq<HourEntry>, k: int): (r: seq<HourEntry>)
    requires 1 <= k <= PageCount(|entries|)
    ensures |r| <= PageSize
    ensures k < PageCount(|entries|) ==> |r| == PageSize
    ensures (k - 1) * PageSize + |r| <= |entries|
    ensures forall i :: 0 <= i < |r| ==> r[i] == entries[(k - 1) * PageSize + i]
  {
    var lo := (k - 1) * PageSize;
    var hi := if lo + PageSize <= |entries| then lo + PageSize else |entries|;
    entries[lo..hi]
  }

  /** `paginator.page(number)` on the listing: a number below 1 or past the
      last page is a 404 (`None`). */
  function Page(entries: seq<HourEntry>, raw: Option<string>): (r: Option<seq<HourEntry>>)
    ensures var k := PageNumber(raw, PageCount(|entries|));
      r.None? <==> k.None? || k.value < 1 || k.value > PageCount(|entries|)
    ensures r.Some? ==> r.value == Slice(entries, PageNumber(raw, PageCount(|entries|)).value)
  {
    var pages := PageCount(|entries|);
    match PageNumber(raw, pages)
    case None => None
    case Some(k) => if k < 1 || k > pages then None else Some(Slice(entries, k))
  }

  /** The first `k` pages, read in order. */
  function PagesUpTo(entries: seq<HourEntry>, k: nat): seq<HourEntry>
    requires k <= PageCount(|entries|)
  {
    if k == 0 then [] else PagesUpTo(entries, k - 1) + Slice(entries, k)
  }

  /** The first `k` pages are the listing up to position 50k. */
  lemma {:induction false} PagesUpToPrefix(entries: seq<HourEntry>, k: nat)
    requires k <= PageCount(|entries|)
    ensures k * PageSize <= |entries| ==> PagesUpTo(entries, k) == entries[..k * PageSize]
    ensures k * PageSize > |entries| ==> PagesUpTo(entries, k) == entries
  {
    if k > 0 {
      PagesUpToPrefix(entries, k - 1);
      var lo := (k - 1) * PageSize;
      var page := Slice(entries, k);
      assert lo <= |entries|;
      assert PagesUpTo(entries, k - 1) == entries[..lo];
      assert page == entries[lo..lo + |page|];
      assert entries[..lo] + entries[lo..lo + |page|] == entries[..lo + |page|];
      if k * PageSize > |entries| {
        assert lo + |page| == |entries|;
      }
    }
  }

  /** The pages, read in order, are the listing: every entry is on exactly
      one page, in its place. */
  lemma PagesCoverListing(entries: seq<HourEntry>)
    ensures PagesUpTo(entries, PageCount(|entries|)) == entries
  {
    PagesUpToPrefix(entries, PageCount(|entries|));
    if PageCount(|entries|) * PageSize <= |entries| {
      assert entries[..PageCount(|entries|) * PageSize] == entries;
    }
  }

  /** A listing of at most 50 entries is shown whole on the first page. */
  lemma ShortListingIsOnePage(entries: seq<HourEntry>)
    requires |entries| <= PageSize
    ensures PageCount(|entries|) == 1 && Page(entries, None) == Some(entries)
  {
    assert Slice(entries, 1) == entries;
  }

  /** The month breakdown of `ProjectHoursView` on page `raw`, with the
      project query read under `policy`: a 404 when the project is not
      visible or the page does not exist, a 500 when the query finds the
      project more than once (the lookup runs before the page is cut), else
      the month groups of that page's entries only. */
  function HoursPage(c: Catalog, u: User, pid: int, log: seq<LoggedEntry>, raw: Option<string>, policy: JoinPolicy)
    : (r: Result<seq<MonthGroup>, LookupError>)
    ensures r == Failure(MultipleObjects) <==> ProjectRepeats(c, u, pid, policy)
    ensures r == Failure(NoSuchObject) <==>
      pid !in VisibleProjects(c, u) || (!ProjectRepeats(c, u, pid, policy) && Page(EntriesOf(log, pid), raw).None?)
    ensures r.Success? ==> r.value == MonthGroups(Page(EntriesOf(log, pid), raw).value)
  {
    match HoursQuery(c, u, pid, log, policy)
    case Failure(e) => Failure(e)
    case Success(listed) =>
      match Page(listed, raw)
      case None => Failure(NoSuchObject)
      case Some(p) => Success(MonthGroups(p))
  }

  /** As written, a manager (or owner) without a project permission cannot
      open the hours of a project whose team has two members: the lookup
      finds the project twice and the page is a 500. With the distinct
      query the first page opens. */
  lemma TeamOfTwoHoursCrash(c: Catalog, u: User, pid: int, log: seq<LoggedEntry>)
    requires pid in c && !SeesAllProjects(u) && !IsClient(u)
    requires c[pid].manager == Some(u.id) && |c[pid].team| == 2
    ensures HoursPage(c, u, pid, log, None, KeepDuplicates) == Failure(MultipleObjects)
    ensures HoursPage(c, u, pid, log, None, Distinct).Success?
  {
    JoinedRowsFound(c[pid], u);
  }

  /** With the distinct query the page never crashes: it opens exactly for
      a visible project and an existing page. */
  lemma DistinctHoursPageOpens(c: Catalog, u: User, pid: int, log: seq<LoggedEntry>, raw: Option<string>)
    ensures HoursPage(c, u, pid, log, raw, Distinct).Success? <==>
      pid in VisibleProjects(c, u) && Page(EntriesOf(log, pid), raw).Some?
    ensures HoursPage(c, u, pid, log, raw, Distinct) != Failure(MultipleObjects)
  {
  }

  /** Every entry a group of the page shows is on that page and logged
      against the project, so a month whose entries straddle two pages is
      summed on each page separately. */
  lemma HoursPageShowsOnlyThePage(c: Catalog, u: User, pid: int, log: seq<LoggedEntry>, raw: Option<string>,
                                  policy: JoinPolicy, i: int, e: HourEntry)
    requires HoursPage(c, u, pid, log, raw, policy).Success?
    requires 0 <= i < |HoursPage(c, u, pid, log, raw, policy).value|
    requires e in HoursPage(c, u, pid, log, raw, policy).value[i].entries
    ensures e in Page(EntriesOf(log, pid), raw).value && LoggedEntry(pid, e) in log
  {
    var listed := EntriesOf(log, pid);
    var p := Page(listed, raw).value;
    GroupedEntryOnPage(p, HoursPage(c, u, pid, log, raw, policy).value, i, e);
    PageWithinListing(listed, raw, e);
  }

  /** An entry of a month group of `p` is an entry of `p`. */
  lemma GroupedEntryOnPage(p: seq<HourEntry>, r: seq<MonthGroup>, i: int, e: HourEntry)
    requires r == MonthGroups(p) && 0 <= i < |r| && e in r[i].entries
    ensures e in p
  {
    assert r[i] == GroupOf(p, r[i].key);
  }

  /** An entry on a page is an entry of the listing. */
  lemma PageWithinListing(listed: seq<HourEntry>, raw: Option<string>, e: HourEntry)
    requires Page(listed, raw).Some? && e in Page(listed, raw).value
    ensures e in listed
  {
    SliceWithinListing(listed, PageNumber(raw, PageCount(|listed|)).value, e);
  }

  /** An entry of page `k` is an entry of the listing. */
  lemma SliceWithinListing(listed: seq<HourEntry>, k: int, e: HourEntry)
    requires 1 <= k <= PageCount(|listed|) && e in Slice(listed, k)
    ensures e in listed
  {
    var p := Slice(listed, k);
    var lo := (k - 1) * PageSize;
    var j :| 0 <= j < |p| && p[j] == e;
    assert lo + j < |listed|;
    assert listed[lo + j] == e;
  }
}
