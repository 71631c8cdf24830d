/**
 * Data preparation for the dashboard's two charts (chart-init.js): per-player
 * totals, the pie series with its synthetic "inactive" slice, the pie's
 * tooltip content, and the line chart's datasets. Chart.js itself, the
 * canvas and the tooltip markup are not modelled; the functions here produce
 * exactly the arrays the script hands to the chart library.
 */
module ChartInit {
  import opened Collections

  /** The 18-colour palette; positions wrap modulo its length. */
  const Colors: seq<string> := [
    "#dc2626", "#ef4444", "#f97316", "#f59e0b", "#eab308",
    "#84cc16", "#22c55e", "#10b981", "#14b8a6", "#06b6d4",
    "#0ea5e9", "#3b82f6", "#6366f1", "#8b5cf6", "#a855f7",
    "#d946ef", "#ec4899", "#f43f5e"
  ]

  /** Label, colour and weight of the aggregate slice for inactive players. */
  const InactiveLabel: string := "Неактивные"
  const InactiveColor: string := "#000000"
  const InactiveShare: real := 0.01

  /** The tooltip of a slice labelled "Mayors" lists this fixed group. */
  const MayorsLabel: string := "Mayors"
  const MayorsMembers: seq<string> := ["F0Fner", "Gokig", "Jelly_Flash", "Kqster1"]

  function PaletteColor(i: nat): (c: string)
    ensures c in Colors
  {
    Colors[i % |Colors|]
  }

  /** The loaded table_data.json: category columns, player rows, and per-player scores. */
  datatype ScoreTable = ScoreTable(
    columns: seq<string>,
    rows: seq<string>,
    values: map<string, map<string, int>>)

  /** The data contract of the score file: no score is negative. */
  ghost predicate NonNegative(t: ScoreTable)
  {
    forall name, col :: name in t.values && col in t.values[name] ==> t.values[name][col] >= 0
  }

  // ---------------------------------------------------------------------
  // Totals and the active / inactive split
  // ---------------------------------------------------------------------

  /** getTotal: the sum of every value in the player's map, 0 when there is no map. */
  ghost function GetTotal(t: ScoreTable, name: string): int
  {
    if name in t.values then MapSum(t.values[name]) else 0
  }

  /** A player without a score map has total 0; otherwise every key of the map,
      listed in `columns` or not, adds its value to the total. */
  lemma GetTotalCountsEveryKey(t: ScoreTable, name: string, col: string)
    ensures name !in t.values ==> GetTotal(t, name) == 0
    ensures name in t.values && col in t.values[name] ==>
      GetTotal(t, name) == t.values[name][col] + MapSum(t.values[name] - {col})
  {
    if name in t.values && col in t.values[name] {
      MapSumRemove(t.values[name], col);
    }
  }

  datatype Player = Player(name: string, total: int)

  predicate IsActive(p: Player) { p.total > 0 }
  predicate IsInactive(p: Player) { p.total == 0 }

  /** rows.map(name => ({ name, total: getTotal(name) })), for any list of names. */
  ghost function PlayersOf(t: ScoreTable, names: seq<string>): (ps: seq<Player>)
    ensures |ps| == |names|
    ensures forall i :: 0 <= i < |names| ==> ps[i] == Player(names[i], GetTotal(t, names[i]))
  {
    seq(|names|, i requires 0 <= i < |names| => Player(names[i], GetTotal(t, names[i])))
  }

  ghost function Players(t: ScoreTable): seq<Player>
  {
    PlayersOf(t, t.rows)
  }

  ghost function Active(t: ScoreTable): seq<Player>
  {
    Filter(Players(t), IsActive)
  }

  ghost function Inactive(t: ScoreTable): seq<Player>
  {
    Filter(Players(t), IsInactive)
  }

  function Names(ps: seq<Player>): (r: seq<string>)
    ensures |r| == |ps|
    ensures forall i :: 0 <= i < |ps| ==> r[i] == ps[i].name
  {
    seq(|ps|, i requires 0 <= i < |ps| => ps[i].name)
  }

  function Totals(ps: seq<Player>): (r: seq<int>)
    ensures |r| == |ps|
    ensures forall i :: 0 <= i < |ps| ==> r[i] == ps[i].total
  {
    seq(|ps|, i requires 0 <= i < |ps| => ps[i].total)
  }

  /**
   * `active` lists, in `rows` order, exactly the rows players whose total is
   * positive; `inactive` likewise those whose total is zero. No player is in
   * both, and when every score is non-negative the two together account for
   * every row.
   */
  lemma ActiveInactiveSplit(t: ScoreTable)
    ensures var idx := FilterIndices(Players(t), IsActive);
      && |idx| == |Active(t)|
      && (forall k, l :: 0 <= k < l < |idx| ==> idx[k] < idx[l])
      && (forall k :: 0 <= k < |idx| ==>
            idx[k] < |t.rows| && Active(t)[k] == Player(t.rows[idx[k]], GetTotal(t, t.rows[idx[k]])))
      && (forall i :: 0 <= i < |t.rows| ==> (GetTotal(t, t.rows[i]) > 0 <==> i in idx))
    ensures var idx := FilterIndices(Players(t), IsInactive);
      && |idx| == |Inactive(t)|
      && (forall k, l :: 0 <= k < l < |idx| ==> idx[k] < idx[l])
      && (forall k :: 0 <= k < |idx| ==>
            idx[k] < |t.rows| && Inactive(t)[k] == Player(t.rows[idx[k]], GetTotal(t, t.rows[idx[k]])))
      && (forall i :: 0 <= i < |t.rows| ==> (GetTotal(t, t.rows[i]) == 0 <==> i in idx))
    ensures forall p :: p in Active(t) ==> p !in Inactive(t)
    ensures NonNegative(t) ==> |Active(t)| + |Inactive(t)| == |t.rows|
  {
    var ps := Players(t);
    FilterIsStableSelection(ps, IsActive);
    FilterIsStableSelection(ps, IsInactive);
    forall p | p in Active(t) ensures p !in Inactive(t) {
      FilterMembers(ps, IsActive, p);
      FilterMembers(ps, IsInactive, p);
    }
    if NonNegative(t) {
      forall i | 0 <= i < |ps| ensures IsActive(ps[i]) <==> !IsInactive(ps[i]) {
        TotalNonNegative(t, t.rows[i]);
      }
      FilterComplement(ps, IsActive, IsInactive);
    }
  }

  lemma TotalNonNegative(t: ScoreTable, name: string)
    requires NonNegative(t)
    ensures GetTotal(t, name) >= 0
  {
    if name in t.values {
      MapSumPositive(t.values[name]);
    }
  }

  // ---------------------------------------------------------------------
  // Pie series (createPieChart)
  // ---------------------------------------------------------------------

  /** The three parallel arrays handed to the pie chart. */
  datatype PieData = PieData(labels: seq<string>, values: seq<real>, colors: seq<string>)

  /** The pie's labels, values and colours: one slice per active player, then
      the inactive slice when some player is inactive. */
  ghost function PieChart(t: ScoreTable): PieData
  {
    var active := Active(t);
    var labels := Names(active);
    var values := seq(|active|, i requires 0 <= i < |active| => active[i].total as real);
    var colors := seq(|active|, i requires 0 <= i < |active| => PaletteColor(i));
    if |Inactive(t)| > 0 then
      var totalActive := SeqSum(Totals(active));
      PieData(labels + [InactiveLabel], values + [totalActive as real * InactiveShare], colors + [InactiveColor])
    else
      PieData(labels, values, colors)
  }

  /**
   * Slice i < |active| shows active[i] with its total and palette colour
   * i mod 18; the arrays always have equal length, one more than |active|
   * exactly when some player is inactive, and that extra slice is last,
   * black, and worth 1% of the active players' summed totals.
   */
  lemma PieSlices(t: ScoreTable)
    ensures var pie, active := PieChart(t), Active(t);
      && |pie.labels| == |pie.values| == |pie.colors|
      && |pie.labels| == |active| + (if |Inactive(t)| > 0 then 1 else 0)
      && (forall i :: 0 <= i < |active| ==>
            && pie.labels[i] == active[i].name
            && pie.values[i] == active[i].total as real
            && pie.colors[i] == Colors[i % 18])
    ensures var pie, last := PieChart(t), |Active(t)|;
      |Inactive(t)| > 0 ==>
        && pie.labels[last] == InactiveLabel
        && pie.colors[last] == InactiveColor
        && pie.values[last] == SeqSum(Totals(Active(t))) as real / 100.0
  {
  }

  /** The inactive slice does not depend on how many players are inactive:
      two tables with the same active players and at least one inactive
      player each give the same pie. */
  lemma InactiveSliceIgnoresInactiveCount(t1: ScoreTable, t2: ScoreTable)
    requires Active(t1) == Active(t2)
    requires |Inactive(t1)| > 0 && |Inactive(t2)| > 0
    ensures PieChart(t1) == PieChart(t2)
  {
  }

  /** With non-negative scores every slice value is non-negative. */
  lemma PieValuesNonNegative(t: ScoreTable)
    requires NonNegative(t)
    ensures forall i :: 0 <= i < |PieChart(t).values| ==> PieChart(t).values[i] >= 0.0
  {
    var active := Active(t);
    forall p | p in active ensures p.total > 0 {
      FilterMembers(Players(t), IsActive, p);
    }
    SeqSumNonNegative(Totals(active));
  }

  /** A single-entry score map sums to its one value. */
  lemma MapSumSingle(col: string, v: int)
    ensures MapSum(map[col := v]) == v
  {
    MapSumRemove(map[col := v], col);
    assert map[col := v] - {col} == map[];
  }

  /**
   * Two active players with totals 100 and 50 and three inactive players
   * (one with an empty map, one with only a zero score, one with no map at
   * all) give the slices 100, 50 and 1.5, the last one for the inactive group.
   */
  lemma PieExample()
    ensures var t := ScoreTable(["A"], ["a", "b", "c", "d", "e"],
                                map["a" := map["A" := 100], "b" := map["A" := 50],
                                    "c" := map[], "d" := map["A" := 0]]);
      && PieChart(t).labels == ["a", "b", InactiveLabel]
      && PieChart(t).values == [100.0, 50.0, 1.5]
  {
    var t := ScoreTable(["A"], ["a", "b", "c", "d", "e"],
                        map["a" := map["A" := 100], "b" := map["A" := 50],
                            "c" := map[], "d" := map["A" := 0]]);
    MapSumSingle("A", 100);
    MapSumSingle("A", 50);
    MapSumSingle("A", 0);
    var ps := [Player("a", 100), Player("b", 50), Player("c", 0), Player("d", 0), Player("e", 0)];
    assert Players(t) == ps;
    var p1, p2, p3, p4 := ps[..1], ps[..2], ps[..3], ps[..4];
    assert p1[..0] == [] && p2[..1] == p1 && p3[..2] == p2 && p4[..3] == p3 && ps[..4] == p4;
    assert Filter(p1, IsActive) == [Player("a", 100)];
    assert Filter(p2, IsActive) == [Player("a", 100), Player("b", 50)];
    assert Filter(p4, IsActive) == [Player("a", 100), Player("b", 50)];
    assert Filter(ps, IsActive) == [Player("a", 100), Player("b", 50)];
    assert Filter(ps, IsInactive) != [];
    assert SeqSum([100, 50]) == 150 by { assert [100, 50][..1] == [100]; }
    assert Totals(Active(t)) == [100, 50];
  }

  // ---------------------------------------------------------------------
  // Pie tooltip content (createTooltipHandler), as a descriptor
  // ---------------------------------------------------------------------

  datatype TooltipContent =
    | MemberList(title: string, members: seq<string>)
    | PlayerCard(name: string, total: int)
    | Thrown  // active[index] is undefined and reading .total throws a TypeError

  /** What the tooltip shows for the slice at `index` carrying `label`. */
  function Tooltip(active: seq<Player>, inactive: seq<Player>, sliceLabel: string, index: nat): TooltipContent
  {
    if sliceLabel == MayorsLabel then MemberList(MayorsLabel, MayorsMembers)
    else if sliceLabel == InactiveLabel then MemberList(InactiveLabel, Names(inactive))
    else if index < |active| then PlayerCard(sliceLabel, active[index].total)
    else Thrown
  }

  /**
   * Hovering any slice of the pie never throws. The label is tested before
   * the index: a slice labelled "Mayors" lists the fixed group and a slice
   * labelled "Неактивные" lists exactly the inactive players in rows order,
   * even when an active player carries that name; the last slice, when
   * present, is the inactive one; any other slice belongs to an active
   * player and shows that player's name and the total the slice is drawn with.
   */
  lemma TooltipForSlice(t: ScoreTable, index: nat)
    requires index < |PieChart(t).labels|
    ensures var pie, active, inactive := PieChart(t), Active(t), Inactive(t);
      var c := Tooltip(active, inactive, pie.labels[index], index);
      && !c.Thrown?
      && (index == |active| ==> c == MemberList(InactiveLabel, Names(inactive)))
      && (pie.labels[index] == MayorsLabel ==> c == MemberList(MayorsLabel, MayorsMembers))
      && (pie.labels[index] == InactiveLabel ==> c == MemberList(InactiveLabel, Names(inactive)))
      && (pie.labels[index] != MayorsLabel && pie.labels[index] != InactiveLabel ==>
            && index < |active|
            && c == PlayerCard(active[index].name, active[index].total)
            && c.total as real == pie.values[index])
  {
    PieSlices(t);
  }

  // ---------------------------------------------------------------------
  // Line datasets (createLineChart)
  // ---------------------------------------------------------------------

  /** A line-chart series: the player's label, one point per column, its colour. */
  datatype Dataset = Dataset(player: string, data: seq<int>, color: string)

  /** The player has a score map holding at least one positive value. */
  predicate HasActivity(t: ScoreTable, name: string)
  {
    name in t.values && exists col :: col in t.values[name] && t.values[name][col] > 0
  }

  function ActivityTest(t: ScoreTable): string -> bool
  {
    name => HasActivity(t, name)
  }

  /** playerValues[col] || 0: the stored score, or 0 when the column is absent. */
  function ScoreOrZero(m: map<string, int>, col: string): int
  {
    if col in m then m[col] else 0
  }

  /** A player's points, padded to the column order. */
  function DataRow(columns: seq<string>, m: map<string, int>): seq<int>
  {
    seq(|columns|, j requires 0 <= j < |columns| => ScoreOrZero(m, columns[j]))
  }

  /**
   * Reference definition of the datasets built for `names`: the names with
   * activity, in order, the k-th of them coloured with palette slot k.
   */
  function SeriesOf(t: ScoreTable, names: seq<string>): seq<Dataset>
  {
    var included := Filter(names, ActivityTest(t));
    seq(|included|, k requires 0 <= k < |included| =>
      Dataset(included[k],
              DataRow(t.columns, if included[k] in t.values then t.values[included[k]] else map[]),
              PaletteColor(k)))
  }

  function LineSeries(t: ScoreTable): seq<Dataset>
  {
    SeriesOf(t, t.rows)
  }

  /** Extending the names by one adds a dataset exactly when that name has activity. */
  lemma SeriesOfSnoc(t: ScoreTable, names: seq<string>, name: string)
    ensures SeriesOf(t, names + [name]) ==
      SeriesOf(t, names) +
      (if HasActivity(t, name)
       then [Dataset(name, DataRow(t.columns, t.values[name]), PaletteColor(|SeriesOf(t, names)|))]
       else [])
  {
    var s := names + [name];
    assert s[..|s| - 1] == names;
  }

  /** The forEach loop of createLineChart, with its early returns and its colour counter. */
  method BuildLineDatasets(t: ScoreTable) returns (datasets: seq<Dataset>)
    ensures datasets == LineSeries(t)
  {
    datasets := [];
    var colorIndex := 0;
    var i := 0;
    while i < |t.rows|
      invariant 0 <= i <= |t.rows|
      invariant datasets == SeriesOf(t, t.rows[..i])
      invariant colorIndex == |datasets|
    {
      var name := t.rows[i];
      SeriesOfSnoc(t, t.rows[..i], name);
      assert t.rows[..i + 1] == t.rows[..i] + [name];
      i := i + 1;
      if name !in t.values {
        continue;
      }
      var playerValues := t.values[name];
      var hasActivity := exists col :: col in playerValues && playerValues[col] > 0;
      if !hasActivity {
        continue;
      }
      assert HasActivity(t, name);
      var data := seq(|t.columns|, j requires 0 <= j < |t.columns| => ScoreOrZero(playerValues, t.columns[j]));
      assert data == DataRow(t.columns, playerValues);
      var color := Colors[colorIndex % |Colors|];
      colorIndex := colorIndex + 1;
      datasets := datasets + [Dataset(name, data, color)];
    }
    assert t.rows[..|t.rows|] == t.rows;
  }

  /**
   * The line chart has one dataset per rows player with activity, in rows
   * order, and skips every other player; dataset k is labelled with its
   * player, has one point per column (the stored score or 0) and takes
   * palette slot k mod 18, so skipped players consume no colour.
   */
  lemma LineDatasets(t: ScoreTable)
    ensures var idx, series := FilterIndices(t.rows, ActivityTest(t)), LineSeries(t);
      && |series| == |idx|
      && (forall k, l :: 0 <= k < l < |idx| ==> idx[k] < idx[l])
      && (forall i :: 0 <= i < |t.rows| ==> (HasActivity(t, t.rows[i]) <==> i in idx))
      && (forall k :: 0 <= k < |idx| ==>
            && idx[k] < |t.rows|
            && series[k].player == t.rows[idx[k]]
            && |series[k].data| == |t.columns|
            && series[k].color == Colors[k % 18]
            && (forall j :: 0 <= j < |t.columns| ==>
                  series[k].data[j] ==
                    (if t.columns[j] in t.values[t.rows[idx[k]]] then t.values[t.rows[idx[k]]][t.columns[j]] else 0)))
  {
    var p := ActivityTest(t);
    FilterIsStableSelection(t.rows, p);
    var included := Filter(t.rows, p);
    forall k | 0 <= k < |included| ensures HasActivity(t, included[k]) {
      FilterMembers(t.rows, p, included[k]);
    }
  }

  /**
   * Under the data contract (no negative scores) the line chart shows
   * exactly the players of the pie's active slices, in the same order.
   */
  lemma {:induction false} LinePlayersAreActivePlayers(t: ScoreTable, names: seq<string>)
    requires NonNegative(t)
    ensures Names(Filter(PlayersOf(t, names), IsActive)) == Filter(names, ActivityTest(t))
    decreases |names|
  {
    if names != [] {
      var init, last := names[..|names| - 1], names[|names| - 1];
      var ps := PlayersOf(t, names);
      assert ps[..|ps| - 1] == PlayersOf(t, init);
      LinePlayersAreActivePlayers(t, init);
      TotalNonNegative(t, last);
      if last in t.values {
        var m := t.values[last];
        assert forall col :: col in m ==> m[col] >= 0;
        MapSumPositive(m);
      }
      assert IsActive(ps[|ps| - 1]) <==> ActivityTest(t)(last);
    }
  }

  /** A player with a single positive score gets one dataset with that point
      and zeros elsewhere; a player whose only score is zero gets none. */
  lemma LineExample()
    ensures LineSeries(ScoreTable(["A", "B", "C"], ["a", "z"],
                                  map["a" := map["B" := 7], "z" := map["A" := 0]]))
         == [Dataset("a", [0, 7, 0], "#dc2626")]
  {
    var t := ScoreTable(["A", "B", "C"], ["a", "z"], map["a" := map["B" := 7], "z" := map["A" := 0]]);
    assert t.values["a"]["B"] > 0;
    assert t.values["z"].Keys == {"A"};
    assert HasActivity(t, "a") && !HasActivity(t, "z");
    assert t.rows[..1] == ["a"] && t.rows[..1][..0] == [];
    assert Filter(t.rows, ActivityTest(t)) == ["a"];
    assert DataRow(t.columns, map["B" := 7]) == [0, 7, 0];
  }

  /**
   * Without the data contract the two charts disagree: a player whose
   * scores cancel out is counted inactive by the pie yet drawn by the line
   * chart.
   */
  lemma NegativeScoresSplitViews()
    ensures var t := ScoreTable(["A", "B"], ["n"], map["n" := map["A" := 5, "B" := -5]]);
      Active(t) == [] && Inactive(t) == [Player("n", 0)] && |LineSeries(t)| == 1
  {
    var t := ScoreTable(["A", "B"], ["n"], map["n" := map["A" := 5, "B" := -5]]);
    var m := map["A" := 5, "B" := -5];
    MapSumRemove(m, "A");
    assert m - {"A"} == map["B" := -5];
    MapSumSingle("B", -5);
    assert Players(t) == [Player("n", 0)];
    assert [Player("n", 0)][..0] == [];
    assert HasActivity(t, "n");
    assert t.rows[..0] == [];
  }

  lemma LineLabelsMatchPie(t: ScoreTable)
    requires NonNegative(t)
    ensures |LineSeries(t)| == |Active(t)|
    ensures forall k :: 0 <= k < |Active(t)| ==>
      LineSeries(t)[k].player == PieChart(t).labels[k] && LineSeries(t)[k].color == PieChart(t).colors[k]
  {
    LinePlayersAreActivePlayers(t, t.rows);
    PieSlices(t);
  }
}
