/**
 * helpers/staking_helpers/get_emission_schedule_for_today.py: today's new emissions per
 * category (the difference between the last two stored days up to today) and today's
 * cumulative emissions, from the stored emission schedule.
 */
module EmissionSchedule {
  import opened Wrappers
  import opened Errors
  import opened Calendar
  import opened Records

  /** The five emission categories, as the result dictionaries name them. */
  const Categories: seq<string> := ["Capital Emission", "Code Emission", "Compute Emission",
    "Community Emission", "Protection Emission"]

  const TotalEmission := "Total Emission"

  /** The most rows `get_emissions_data` asks for. */
  const Limit := 10000

  /** `{'new_emissions': ..., 'total_emissions': ...}` */
  datatype Schedule = Schedule(newEmissions: map<string, real>, totalEmissions: map<string, real>)

  const NoSchedule := Schedule(map[], map[])

  /**
   * `get_emissions_data`: the first `Limit` stored rows in id order, or the empty frame when
   * reading the table fails.
   */
  function EmissionsData(table: Result<seq<Emission>, Error>): (rows: seq<Emission>)
    ensures table.Failure? ==> rows == []
    ensures table.Success? ==> rows == table.value[..if |table.value| < Limit then |table.value| else Limit]
  {
    match table
    case Failure(_) => []
    case Success(all) => if |all| < Limit then all else all[..Limit]
  }

  /** The amount of category `name` in a row (0 for a name that is not a category). */
  function AmountOf(e: Emission, name: string): real
  {
    if name == Categories[0] then e.capital
    else if name == Categories[1] then e.code
    else if name == Categories[2] then e.compute
    else if name == Categories[3] then e.community
    else if name == Categories[4] then e.protection
    else 0.0
  }

  predicate OnOrBefore(e: Emission, today: Date)
  {
    Key(e.date) <= Key(today)
  }

  /** `df[df['Date'] <= today]`: the rows dated today or earlier, in table order. */
  function UpTo(rows: seq<Emission>, today: Date): (r: seq<Emission>)
    ensures |r| <= |rows|
    ensures forall i :: 0 <= i < |r| ==> OnOrBefore(r[i], today)
  {
    if rows == [] then []
    else
      var init := UpTo(rows[..|rows| - 1], today);
      if OnOrBefore(rows[|rows| - 1], today) then init + [rows[|rows| - 1]] else init
  }

  /** The first row dated `today`, in table order (`df_today.iloc[0]`). */
  function FirstOn(rows: seq<Emission>, today: Date): (r: Option<Emission>)
    ensures r.Some? ==> r.value in rows && r.value.date == today
  {
    if rows == [] then None
    else if rows[0].date == today then Some(rows[0])
    else FirstOn(rows[1..], today)
  }

  /** `new_emissions` before its total: each category of `last` less the same category of `previous` (of 0 when there is none). */
  function Differences(last: Emission, previous: Option<Emission>): map<string, real>
  {
    map c | c in Categories :: AmountOf(last, c) - (if previous.Some? then AmountOf(previous.value, c) else 0.0)
  }

  /** The sum of the categories of `m`: `sum(new_emissions.values())` over the five categories. */
  function CategorySum(m: map<string, real>): real
    requires forall c :: c in Categories ==> c in m
  {
    m[Categories[0]] + m[Categories[1]] + m[Categories[2]] + m[Categories[3]] + m[Categories[4]]
  }

  /** `new_emissions`: the differences, and their sum under `Total Emission`. */
  function NewEmissions(last: Emission, previous: Option<Emission>): map<string, real>
  {
    var diffs := Differences(last, previous);
    diffs[TotalEmission := CategorySum(diffs)]
  }

  /** `total_emissions`: the categories and the total emission of the row dated today, or zeros. */
  function Totals(today: Option<Emission>): map<string, real>
  {
    match today
    case None => (map c | c in Categories :: 0.0)[TotalEmission := 0.0]
    case Some(e) => (map c | c in Categories :: AmountOf(e, c))[TotalEmission := e.totalEmission]
  }

  /** `read_emission_schedule(today)` over the rows `get_emissions_data` returned. */
  function ReadEmissionSchedule(rows: seq<Emission>, today: Date): (s: Schedule)
    ensures rows == [] || UpTo(rows, today) == [] ==> s == NoSchedule
    ensures UpTo(rows, today) != [] ==> TotalEmission in s.newEmissions && forall c :: c in Categories ==> c in s.newEmissions
  {
    var upTo := UpTo(rows, today);
    if rows == [] || upTo == [] then NoSchedule
    else
      var n := |upTo|;
      Schedule(NewEmissions(upTo[n - 1], if n > 1 then Some(upTo[n - 2]) else None), Totals(FirstOn(rows, today)))
  }

  // ---------------------------------------------------------------- properties

  /** The total of the new emissions is the sum of the five category differences. */
  lemma NewTotalIsSum(rows: seq<Emission>, today: Date)
    requires UpTo(rows, today) != []
    ensures var s := ReadEmissionSchedule(rows, today);
      s.newEmissions[TotalEmission] == s.newEmissions[Categories[0]] + s.newEmissions[Categories[1]]
        + s.newEmissions[Categories[2]] + s.newEmissions[Categories[3]] + s.newEmissions[Categories[4]]
  {
    assert rows != [];
    assert forall c :: c in Categories ==> c != TotalEmission;
  }

  /**
   * The last row of `UpTo` is the last row of the table dated today or earlier, and the one
   * before it is the previous such row.
   */
  lemma {:induction false} UpToEnds(rows: seq<Emission>, today: Date, i: int, j: nat)
    requires j < |rows| && OnOrBefore(rows[j], today)
    requires forall l :: j < l < |rows| ==> !OnOrBefore(rows[l], today)
    requires -1 <= i < j
    requires 0 <= i ==> OnOrBefore(rows[i], today)
    requires forall l :: i < l < j ==> !OnOrBefore(rows[l], today)
    ensures var u := UpTo(rows, today); |u| >= 1 && u[|u| - 1] == rows[j]
    ensures var u := UpTo(rows, today); 0 <= i <==> |u| >= 2
    ensures var u := UpTo(rows, today); 0 <= i ==> u[|u| - 2] == rows[i]
    decreases |rows|
  {
    var init := rows[..|rows| - 1];
    if j < |rows| - 1 {
      UpToEnds(init, today, i, j);
    } else if 0 <= i {
      UpToLast(init, today, i);
    } else {
      UpToNone(init, today);
    }
  }

  /** The last row of `UpTo` is the last row dated today or earlier. */
  lemma {:induction false} UpToLast(rows: seq<Emission>, today: Date, j: nat)
    requires j < |rows| && OnOrBefore(rows[j], today)
    requires forall l :: j < l < |rows| ==> !OnOrBefore(rows[l], today)
    ensures UpTo(rows, today) != [] && UpTo(rows, today)[|UpTo(rows, today)| - 1] == rows[j]
    decreases |rows|
  {
    if j < |rows| - 1 {
      UpToLast(rows[..|rows| - 1], today, j);
    }
  }

  /** No row dated today or earlier: `UpTo` is empty. */
  lemma {:induction false} UpToNone(rows: seq<Emission>, today: Date)
    requires forall l :: 0 <= l < |rows| ==> !OnOrBefore(rows[l], today)
    ensures UpTo(rows, today) == []
    decreases |rows|
  {
    if rows != [] {
      UpToNone(rows[..|rows| - 1], today);
    }
  }

  /**
   * `new_emissions[c]` is the category `c` of the last row dated today or earlier (`rows[j]`)
   * less that of the previous such row (`rows[i]`), or less 0 when there is none (`i == -1`).
   */
  lemma NewEmissionsAreDifferences(rows: seq<Emission>, today: Date, i: int, j: nat, c: string)
    requires j < |rows| && OnOrBefore(rows[j], today)
    requires forall l :: j < l < |rows| ==> !OnOrBefore(rows[l], today)
    requires -1 <= i < j
    requires 0 <= i ==> OnOrBefore(rows[i], today)
    requires forall l :: i < l < j ==> !OnOrBefore(rows[l], today)
    requires c in Categories
    ensures c in ReadEmissionSchedule(rows, today).newEmissions
    ensures ReadEmissionSchedule(rows, today).newEmissions[c]
         == AmountOf(rows[j], c) - (if 0 <= i then AmountOf(rows[i], c) else 0.0)
  {
    UpToEnds(rows, today, i, j);
    var previous := if 0 <= i then Some(rows[i]) else None;
    var u := UpTo(rows, today);
    assert (if |u| > 1 then Some(u[|u| - 2]) else None) == previous;
    assert ReadEmissionSchedule(rows, today).newEmissions == NewEmissions(rows[j], previous);
    NewEmissionsAt(rows[j], previous, c);
  }

  lemma NewEmissionsAt(last: Emission, previous: Option<Emission>, c: string)
    requires c in Categories
    ensures c in NewEmissions(last, previous)
    ensures NewEmissions(last, previous)[c] == AmountOf(last, c) - (if previous.Some? then AmountOf(previous.value, c) else 0.0)
  {
    assert c != TotalEmission;
  }

  /** `FirstOn` finds the first row dated today: `rows[i]` when no earlier row has that date. */
  lemma {:induction false} FirstOnFinds(rows: seq<Emission>, today: Date, i: nat)
    requires i < |rows| && rows[i].date == today
    requires forall l :: 0 <= l < i ==> rows[l].date != today
    ensures FirstOn(rows, today) == Some(rows[i])
  {
    if i > 0 {
      FirstOnFinds(rows[1..], today, i - 1);
    }
  }

  /** `FirstOn` is `None` exactly when no row is dated today. */
  lemma {:induction false} FirstOnNone(rows: seq<Emission>, today: Date)
    ensures FirstOn(rows, today).None? <==> forall l :: 0 <= l < |rows| ==> rows[l].date != today
  {
    if rows != [] {
      FirstOnNone(rows[1..], today);
      assert forall l :: 1 <= l < |rows| ==> rows[l] == rows[1..][l - 1];
    }
  }

  /**
   * `total_emissions` holds the categories and total of the first row dated today, or 0 for
   * each when no row is dated today.
   */
  lemma TotalsOfToday(rows: seq<Emission>, today: Date, c: string)
    requires UpTo(rows, today) != []
    requires c in Categories || c == TotalEmission
    ensures var t := ReadEmissionSchedule(rows, today).totalEmissions;
      c in t && t[c] == match FirstOn(rows, today)
        case None => 0.0
        case Some(e) => if c == TotalEmission then e.totalEmission else AmountOf(e, c)
  {
    assert rows != [];
  }
}
