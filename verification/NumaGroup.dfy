/** NUMA hinting faults of tasks and the totals kept for groups of tasks. */
module NumaGroups {
  import opened Sums
  import opened Seqs

  /** Regions of the fault array: two averaged ones, kept also per group, and two buffers. */
  datatype Region = Mem | Cpu | MemBuf | CpuBuf

  function Base(s: Region): nat {
    match s case Mem => 0 case Cpu => 1 case MemBuf => 2 case CpuBuf => 3
  }

  /** task_faults_idx on a machine with n nodes */
  function Idx(n: nat, s: Region, nid: nat, priv: nat): (i: nat)
    ensures nid < n && priv < 2 ==> i < 8 * n
  {
    2 * (Base(s) * n + nid) + priv
  }

  /** Every place of the array belongs to one region, node and type; and seen from the second
      region, faults_cpu[mem_idx] of a group is its faults[cpu_idx]. */
  lemma IdxIsPlace(n: nat, s: Region, nid: nat, priv: nat, s': Region, nid': nat, priv': nat)
    requires nid < n && nid' < n && priv < 2 && priv' < 2
    ensures Idx(n, s, nid, priv) < 8 * n && (Idx(n, s, nid, priv) < 4 * n <==> s.Mem? || s.Cpu?)
    ensures Idx(n, s, nid, priv) < 2 * n <==> s.Mem?
    ensures Idx(n, s, nid, priv) == Idx(n, s', nid', priv') <==> s == s' && nid == nid' && priv == priv'
    ensures 2 * n + Idx(n, Mem, nid, priv) == Idx(n, Cpu, nid, priv)
  {
  }

  // ---- Sums over the members of a group ----

  const NoGroup: int := -1

  /** The entries of place i, task by task; a task without an array has none. */
  function Column(faults: seq<seq<int>>, i: nat): (r: seq<int>)
    ensures |r| == |faults|
  {
    seq(|faults|, t requires 0 <= t < |faults| => if i < |faults[t]| then faults[t][i] else 0)
  }

  function Members(w: seq<int>, group: seq<int>, g: int): (r: seq<int>)
    requires |w| == |group|
    ensures |r| == |w|
  {
    seq(|w|, t requires 0 <= t < |w| => if group[t] == g then w[t] else 0)
  }

  function MemberSum(w: seq<int>, group: seq<int>, g: int): int
    requires |w| == |group|
  {
    Sum(Members(w, group, g))
  }

  lemma MemberSumSet(w: seq<int>, group: seq<int>, g: int, t: nat, v: int)
    requires |w| == |group| && t < |w|
    ensures MemberSum(w[t := v], group, g) == MemberSum(w, group, g) + if group[t] == g then v - w[t] else 0
  {
    var m := Members(w, group, g);
    SumUpdate(m, t, if group[t] == g then v else 0);
    assert Members(w[t := v], group, g) == m[t := if group[t] == g then v else 0];
  }

  lemma MemberSumMove(w: seq<int>, group: seq<int>, g: int, t: nat, b: int)
    requires |w| == |group| && t < |w|
    ensures MemberSum(w, group[t := b], g)
      == MemberSum(w, group, g) - (if group[t] == g then w[t] else 0) + (if b == g then w[t] else 0)
  {
    var m := Members(w, group, g);
    SumUpdate(m, t, if b == g then w[t] else 0);
    assert Members(w, group[t := b], g) == m[t := if b == g then w[t] else 0];
  }

  lemma MemberSumNone(w: seq<int>, group: seq<int>, g: int)
    requires |w| == |group| && forall t :: 0 <= t < |group| ==> group[t] != g
    ensures MemberSum(w, group, g) == 0
  {
    SumZero(Members(w, group, g));
  }

  /** No member's entry exceeds the sum. */
  lemma MemberSumAtLeast(w: seq<int>, group: seq<int>, g: int, t: nat)
    requires |w| == |group| && t < |w| && group[t] == g
    requires forall i :: 0 <= i < |w| && group[i] == g ==> 0 <= w[i]
    ensures w[t] <= MemberSum(w, group, g)
  {
    SumAtLeast(Members(w, group, g), t);
  }

  lemma ColumnSet(faults: seq<seq<int>>, t: nat, i: nat, v: int, j: nat)
    requires t < |faults| && i < |faults[t]|
    ensures Column(faults[t := faults[t][i := v]], j)
      == if i == j then Column(faults, j)[t := v] else Column(faults, j)
  {
  }

  // ---- The tables ----

  datatype Group = Group(faults: seq<int>, total: int, nrTasks: int, refs: int)

  ghost predicate TaskOk(n: nat, row: seq<int>, total: int, group: int) {
    if row == [] then group == NoGroup
    else |row| == 8 * n && (forall i :: 0 <= i < |row| ==> 0 <= row[i]) && total == Sum(row[..2 * n])
  }

  /** Everything a group stores is the sum over its members. */
  ghost predicate GroupOk(n: nat, faults: seq<seq<int>>, total: seq<int>, group: seq<int>, grp: Group, g: int)
    requires |faults| == |total| == |group|
  {
    && |grp.faults| == 4 * n
    && (forall i :: 0 <= i < 4 * n ==> grp.faults[i] == MemberSum(Column(faults, i), group, g))
    && grp.total == MemberSum(total, group, g)
    && grp.nrTasks == grp.refs == MemberSum(seq(|group|, _ => 1), group, g)
  }

  ghost predicate TablesOk(n: nat, faults: seq<seq<int>>, total: seq<int>, group: seq<int>, groups: seq<Group>) {
    && |faults| == |total| == |group|
    && (forall t :: 0 <= t < |faults| ==>
          TaskOk(n, faults[t], total[t], group[t]) && NoGroup <= group[t] < |groups|)
    && (forall g :: 0 <= g < |groups| ==> GroupOk(n, faults, total, group, groups[g], g))
  }

  /** One averaged entry of task t changes by d, and its group's with it. */
  function GroupAdd(n: nat, grp: Group, i: nat, d: int): Group
    requires i < |grp.faults|
  {
    grp.(faults := grp.faults[i := grp.faults[i] + d], total := if i < 2 * n then grp.total + d else grp.total)
  }

  lemma TaskAdd(n: nat, row: seq<int>, total: int, group: int, i: nat, d: int)
    requires TaskOk(n, row, total, group) && i < |row| && 0 <= row[i] + d
    ensures TaskOk(n, row[i := row[i] + d], if i < 2 * n then total + d else total, group)
  {
    var row' := row[i := row[i] + d];
    if i < 2 * n {
      SumUpdate(row[..2 * n], i, row[i] + d);
      assert row'[..2 * n] == row[..2 * n][i := row[i] + d];
    } else {
      assert row'[..2 * n] == row[..2 * n];
    }
  }

  lemma GroupAddOk(n: nat, faults: seq<seq<int>>, total: seq<int>, group: seq<int>, grp: Group, g: int,
                   t: nat, i: nat, d: int)
    requires |faults| == |total| == |group| && GroupOk(n, faults, total, group, grp, g)
    requires t < |faults| && i < |faults[t]|
    ensures GroupOk(n, faults[t := faults[t][i := faults[t][i] + d]],
                    if i < 2 * n then total[t := total[t] + d] else total, group,
                    if group[t] == g && i < 4 * n then GroupAdd(n, grp, i, d) else grp, g)
  {
    var faults' := faults[t := faults[t][i := faults[t][i] + d]];
    forall j | 0 <= j < 4 * n
      ensures MemberSum(Column(faults', j), group, g)
        == MemberSum(Column(faults, j), group, g) + if i == j && group[t] == g then d else 0
    {
      ColumnSet(faults, t, i, faults[t][i] + d, j);
      MemberSumSet(Column(faults, j), group, g, t, faults[t][i] + d);
    }
    MemberSumSet(total, group, g, t, total[t] + d);
  }

  lemma AddOk(n: nat, faults: seq<seq<int>>, total: seq<int>, group: seq<int>, groups: seq<Group>,
              t: nat, i: nat, d: int)
    requires TablesOk(n, faults, total, group, groups) && t < |faults| && i < |faults[t]| && 0 <= faults[t][i] + d
    requires group[t] >= 0 ==> |groups[group[t]].faults| == 4 * n
    ensures TablesOk(n, faults[t := faults[t][i := faults[t][i] + d]],
                     if i < 2 * n then total[t := total[t] + d] else total, group,
                     if group[t] >= 0 && i < 4 * n then groups[group[t] := GroupAdd(n, groups[group[t]], i, d)]
                     else groups)
  {
    hide TaskOk, GroupOk, GroupAdd;
    TaskAdd(n, faults[t], total[t], group[t], i, d);
    forall g | 0 <= g < |groups| {
      GroupAddOk(n, faults, total, group, groups[g], g, t, i, d);
    }
  }

  /** A group's entry covers each member's entry, so taking a member's share off never underflows. */
  lemma GroupCovers(n: nat, faults: seq<seq<int>>, total: seq<int>, group: seq<int>, groups: seq<Group>, t: nat, i: nat)
    requires TablesOk(n, faults, total, group, groups) && t < |faults| && i < 4 * n && group[t] >= 0
    ensures |faults[t]| == 8 * n && |groups[group[t]].faults| == 4 * n
    ensures 0 <= faults[t][i] <= groups[group[t]].faults[i]
    ensures groups[group[t]].nrTasks == groups[group[t]].refs >= 1
  {
    assert GroupOk(n, faults, total, group, groups[group[t]], group[t]);
    assert TaskOk(n, faults[t], total[t], group[t]);
    forall j | 0 <= j < |faults| && group[j] == group[t] ensures 0 <= Column(faults, i)[j] {
      assert TaskOk(n, faults[j], total[j], group[j]);
    }
    MemberSumAtLeast(Column(faults, i), group, group[t], t);
    MemberSumAtLeast(seq(|group|, _ => 1), group, group[t], t);
  }

  // ---- A task changes its group ----

  /** The group after a task with these faults left (sign -1) or joined (sign 1). */
  ghost predicate Shifted(n: nat, before: Group, after: Group, row: seq<int>, total: int, sign: int) {
    && |before.faults| == |after.faults| == 4 * n <= |row|
    && (forall i :: 0 <= i < 4 * n ==> after.faults[i] == before.faults[i] + sign * row[i])
    && after.total == before.total + sign * total
    && after.nrTasks == before.nrTasks + sign && after.refs == before.refs + sign
  }

  lemma ShiftOk(n: nat, faults: seq<seq<int>>, total: seq<int>, group: seq<int>, before: Group, after: Group,
                g: int, t: nat, b: int)
    requires |faults| == |total| == |group| && GroupOk(n, faults, total, group, before, g)
    requires t < |faults| && 4 * n <= |faults[t]| && group[t] != b
    requires if g == group[t] then Shifted(n, before, after, faults[t], total[t], -1)
             else if g == b then Shifted(n, before, after, faults[t], total[t], 1)
             else after == before
    ensures GroupOk(n, faults, total, group[t := b], after, g)
  {
    forall i | 0 <= i < 4 * n
      ensures after.faults[i] == MemberSum(Column(faults, i), group[t := b], g)
    {
      MemberSumMove(Column(faults, i), group, g, t, b);
    }
    MemberSumMove(total, group, g, t, b);
    MemberSumMove(seq(|group|, _ => 1), group, g, t, b);
  }

  /** A task without a group whose array is dropped, or set up, changes no group. */
  lemma ReplaceOk(n: nat, faults: seq<seq<int>>, total: seq<int>, group: seq<int>, groups: seq<Group>,
                  t: nat, row: seq<int>, tot: int)
    requires TablesOk(n, faults, total, group, groups) && t < |faults| && group[t] == NoGroup
    requires TaskOk(n, row, tot, NoGroup)
    ensures TablesOk(n, faults[t := row], total[t := tot], group, groups)
  {
    forall g | 0 <= g < |groups| ensures GroupOk(n, faults[t := row], total[t := tot], group, groups[g], g) {
      forall i | 0 <= i < 4 * n
        ensures MemberSum(Column(faults[t := row], i), group, g) == MemberSum(Column(faults, i), group, g)
      {
        assert Members(Column(faults[t := row], i), group, g) == Members(Column(faults, i), group, g);
      }
      assert Members(total[t := tot], group, g) == Members(total, group, g);
    }
  }

  /** A loop over the places has dealt with those below i. */
  ghost predicate Shifting(before: Group, after: Group, row: seq<int>, i: nat, sign: int) {
    && |before.faults| == |after.faults| <= |row| && i <= |before.faults|
    && (forall j :: 0 <= j < |before.faults| ==>
          after.faults[j] == before.faults[j] + if j < i then sign * row[j] else 0)
    && after.total == before.total && after.nrTasks == before.nrTasks && after.refs == before.refs
  }

  /** The totals of a group that a task leaves or joins. */
  function Less(grp: Group, total: int): Group {
    grp.(total := grp.total - total, nrTasks := grp.nrTasks - 1, refs := grp.refs - 1)
  }

  function More(grp: Group, total: int): Group {
    grp.(total := grp.total + total, nrTasks := grp.nrTasks + 1, refs := grp.refs + 1)
  }

  function ShiftAt(grp: Group, i: nat, d: int): Group
    requires i < |grp.faults|
  {
    grp.(faults := grp.faults[i := grp.faults[i] + d])
  }

  lemma EmptyOk(n: nat, faults: seq<seq<int>>, total: seq<int>, group: seq<int>, groups: seq<Group>)
    requires TablesOk(n, faults, total, group, groups)
    ensures GroupOk(n, faults, total, group, Group(seq(4 * n, _ => 0), 0, 0, 0), |groups|)
  {
    var g := |groups|;
    forall i | 0 <= i < 4 * n ensures MemberSum(Column(faults, i), group, g) == 0 {
      MemberSumNone(Column(faults, i), group, g);
    }
    MemberSumNone(total, group, g);
    MemberSumNone(seq(|group|, _ => 1), group, g);
  }

  /** Which group a task with an array is in does not matter for its own entries. */
  lemma GroupFree(n: nat, row: seq<int>, total: int, g: int, g': int)
    requires TaskOk(n, row, total, g) && (g == g' || row != [] || g' == NoGroup)
    ensures TaskOk(n, row, total, g')
  {
  }

  lemma NoRow(n: nat, total: int)
    ensures TaskOk(n, [], total, NoGroup)
  {
  }

  lemma InGroupHasRow(n: nat, row: seq<int>, total: int, g: int)
    requires TaskOk(n, row, total, g) && g != NoGroup
    ensures row != []
  {
  }

  // ---- Placement ----

  /** How long the task ran, over which period, and how many faults it saw since the last time. */
  datatype Window = Window(runtime: nat, period: nat, totalFaults: nat)

  /** The cpu entry gained for `buf` faults: weighted by the share of time the task ran. */
  function CpuWeight(w: Window, buf: int): int { w.runtime * 65536 / (w.period + 1) * buf / (w.totalFaults + 1) }

  lemma WeightNonNegative(w: Window, buf: int)
    requires 0 <= buf
    ensures 0 <= CpuWeight(w, buf)
  {
    var f := w.runtime * 65536 / (w.period + 1);
    assert 0 <= f * buf;
  }

  /** The weight of the faults against the exact runtime * 2^16 * buf / (period + 1) / (faults + 1), with
      both sides multiplied out: never more, and less by under buf + faults + 1 periods. */
  lemma CpuWeightBounds(w: Window, buf: nat)
    ensures var p, m := w.period + 1, w.totalFaults + 1; var x := w.runtime * 65536 * buf;
      CpuWeight(w, buf) * m * p <= x < CpuWeight(w, buf) * m * p + (buf + m) * p
  {
    var p, m, r := w.period + 1, w.totalFaults + 1, w.runtime * 65536;
    var f := r / p;
    var c := CpuWeight(w, buf);
    assert r == f * p + r % p;
    Quotients(r, f, p, buf, c, m);
  }

  lemma Quotients(r: nat, f: nat, p: nat, buf: nat, c: int, m: nat)
    requires p > 0 && m > 0 && f * p <= r < f * p + p && c == f * buf / m
    ensures c * m * p <= r * buf < c * m * p + (buf + m) * p
  {
    var y := f * buf;
    assert c * m <= y < c * m + m by { assert y == c * m + y % m; }
    Scaled(c * m, y, p);
    Scaled(y + 1, c * m + m, p);
    Scaled(f * p, r, buf);
    Scaled(r, f * p + p, buf);
    assert f * p * buf == y * p;
    assert (f * p + p) * buf == y * p + p * buf;
    assert (y + 1) * p == y * p + p && (c * m + m) * p == c * m * p + m * p;
    assert (buf + m) * p == p * buf + m * p;
  }

  lemma Scaled(a: int, b: int, k: nat)
    requires a <= b
    ensures a * k <= b * k
  {
  }

  /** A task that ran no longer than the period: all its buffered faults together weigh at most 2^16. */
  lemma CpuWeightSmall(w: Window, buf: nat)
    requires w.runtime <= w.period + 1 && buf <= w.totalFaults
    ensures CpuWeight(w, buf) <= 65536
  {
    var f := w.runtime * 65536 / (w.period + 1);
    assert f <= 65536;
    Scaled(f, 65536, buf);
    assert f * buf <= 65536 * (w.totalFaults + 1);
  }

  /** One node and type: the averages are halved and topped up from the emptied buffers. */
  ghost predicate PlacedAt(n: nat, row: seq<int>, row': seq<int>, nid: nat, priv: nat, w: Window)
    requires |row| == |row'| == 8 * n && nid < n && priv < 2
  {
    var mem, buf := Idx(n, Mem, nid, priv), Idx(n, MemBuf, nid, priv);
    var cpu, cpuBuf := Idx(n, Cpu, nid, priv), Idx(n, CpuBuf, nid, priv);
    && row'[mem] == row[mem] - row[mem] / 2 + row[buf] && row'[buf] == 0
    && row'[cpu] == row[cpu] - row[cpu] / 2 + CpuWeight(w, row[cpuBuf]) && row'[cpuBuf] == 0
  }

  ghost predicate SameAt(n: nat, row: seq<int>, row': seq<int>, nid: nat, priv: nat)
    requires |row| == |row'| == 8 * n && nid < n && priv < 2
  {
    forall s: Region :: row'[Idx(n, s, nid, priv)] == row[Idx(n, s, nid, priv)]
  }

  /** Exactly one node and type is placed. */
  ghost predicate PlacedOnly(n: nat, row: seq<int>, row': seq<int>, nid: nat, priv: nat, w: Window)
    requires |row| == |row'| == 8 * n && nid < n && priv < 2
  {
    && PlacedAt(n, row, row', nid, priv, w)
    && forall a: nat, b: nat :: a < n && b < 2 && !(a == nid && b == priv) ==> SameAt(n, row, row', a, b)
  }

  lemma PlacedOnlyIs(n: nat, row: seq<int>, nid: nat, priv: nat, w: Window)
    requires |row| == 8 * n && nid < n && priv < 2
    ensures PlacedOnly(n, row, PlaceRow(n, row, nid, priv, w), nid, priv, w)
  {
    hide CpuWeight, Idx;
    var row' := PlaceRow(n, row, nid, priv, w);
    PlacesApart(n, nid, priv, nid, priv);
    forall a: nat, b: nat | a < n && b < 2 && !(a == nid && b == priv) ensures SameAt(n, row, row', a, b) {
      PlacesApart(n, nid, priv, a, b);
    }
  }

  /** IdxIsPlace for all pairs of regions. */
  lemma PlacesApart(n: nat, nid: nat, priv: nat, a: nat, b: nat)
    requires nid < n && a < n && priv < 2 && b < 2
    ensures forall s: Region, s': Region ::
      Idx(n, s, nid, priv) == Idx(n, s', a, b) <==> s == s' && nid == a && priv == b
    ensures forall s: Region :: Idx(n, s, nid, priv) < 4 * n <==> s.Mem? || s.Cpu?
  {
    forall s: Region, s': Region
      ensures Idx(n, s, nid, priv) == Idx(n, s', a, b) <==> s == s' && nid == a && priv == b
      ensures Idx(n, s, nid, priv) < 4 * n <==> s.Mem? || s.Cpu?
    {
      IdxIsPlace(n, s, nid, priv, s', a, b);
    }
  }

  function PlaceRow(n: nat, row: seq<int>, nid: nat, priv: nat, w: Window): (r: seq<int>)
    requires |row| == 8 * n && nid < n && priv < 2
    ensures |r| == |row|
  {
    var mem, buf := Idx(n, Mem, nid, priv), Idx(n, MemBuf, nid, priv);
    var cpu, cpuBuf := Idx(n, Cpu, nid, priv), Idx(n, CpuBuf, nid, priv);
    row[buf := 0][cpuBuf := 0][mem := row[mem] + (row[buf] - row[mem] / 2)]
       [cpu := row[cpu] + (CpuWeight(w, row[cpuBuf]) - row[cpu] / 2)]
  }

  lemma PlacedNone(n: nat, row: seq<int>, w: Window)
    requires |row| == 8 * n
    ensures PlacedSet(n, row, row, [], 0, w)
  {
  }

  lemma PlacedNoNode(n: nat, row: seq<int>, w: Window)
    requires |row| == 8 * n
    ensures PlacedSet(n, row, row, [], 2, w)
  {
  }

  /** All types of all of `nodes` but the last are placed, and p types of the last. */
  predicate IsPlaced(nodes: seq<nat>, p: nat, nid: nat, priv: nat) {
    nid in nodes && (nid == nodes[|nodes| - 1] ==> priv < p)
  }

  ghost predicate PlacedSet(n: nat, row: seq<int>, row': seq<int>, nodes: seq<nat>, p: nat, w: Window)
    requires |row| == |row'| == 8 * n
  {
    forall a: nat, b: nat :: a < n && b < 2 ==>
      if IsPlaced(nodes, p, a, b) then PlacedAt(n, row, row', a, b, w) else SameAt(n, row, row', a, b)
  }

  /** Placing composes with leaving alone, on either side. */
  lemma Then(n: nat, row: seq<int>, row1: seq<int>, row2: seq<int>, a: nat, b: nat, w: Window)
    requires |row| == |row1| == |row2| == 8 * n && a < n && b < 2
    ensures SameAt(n, row, row1, a, b) && SameAt(n, row1, row2, a, b) ==> SameAt(n, row, row2, a, b)
    ensures PlacedAt(n, row, row1, a, b, w) && SameAt(n, row1, row2, a, b) ==> PlacedAt(n, row, row2, a, b, w)
    ensures SameAt(n, row, row1, a, b) && PlacedAt(n, row1, row2, a, b, w) ==> PlacedAt(n, row, row2, a, b, w)
  {
    hide CpuWeight, Idx;
  }

  lemma PlacedMore(n: nat, row: seq<int>, row1: seq<int>, row2: seq<int>, nodes: seq<nat>, priv: nat, w: Window)
    requires |row| == |row1| == |row2| == 8 * n && nodes != [] && nodes[|nodes| - 1] < n && priv < 2
    requires PlacedSet(n, row, row1, nodes, priv, w) && PlacedOnly(n, row1, row2, nodes[|nodes| - 1], priv, w)
    ensures PlacedSet(n, row, row2, nodes, priv + 1, w)
  {
    hide PlacedAt, SameAt;
    var nid := nodes[|nodes| - 1];
    forall a: nat, b: nat | a < n && b < 2
      ensures if IsPlaced(nodes, priv + 1, a, b) then PlacedAt(n, row, row2, a, b, w) else SameAt(n, row, row2, a, b)
    {
      Then(n, row, row1, row2, a, b, w);
    }
  }

  lemma NextNode(n: nat, row: seq<int>, row1: seq<int>, nodes: seq<nat>, nid: nat, w: Window)
    requires |row| == |row1| == 8 * n && nid !in nodes
    requires PlacedSet(n, row, row1, nodes, 2, w) || (nodes == [] && PlacedSet(n, row, row1, [], 0, w))
    ensures PlacedSet(n, row, row1, nodes + [nid], 0, w)
  {
    hide PlacedAt, SameAt;
    forall a: nat, b: nat | a < n && b < 2
      ensures if IsPlaced(nodes + [nid], 0, a, b) then PlacedAt(n, row, row1, a, b, w) else SameAt(n, row, row1, a, b)
    {
      assert IsPlaced(nodes + [nid], 0, a, b) <==> IsPlaced(nodes, 2, a, b);
    }
  }

  class NumaFaults {
    const n: nat
    var faults: seq<seq<int>>
    var total: seq<int>
    var group: seq<int>
    var groups: seq<Group>

    ghost predicate Valid()
      reads this
    {
      n > 0 && TablesOk(n, faults, total, group, groups)
    }

    constructor (n: nat, tasks: nat)
      requires n > 0
      ensures Valid() && this.n == n && |faults| == tasks && groups == []
    {
      this.n := n;
      faults, total := seq(tasks, _ => []), seq(tasks, _ => 0);
      group, groups := seq(tasks, _ => NoGroup), [];
    }

    /** The array of task t is set up at its first fault. */
    method AllocateFaults(t: nat)
      requires Valid() && t < |faults| && faults[t] == []
      modifies `faults, `total
      ensures Valid() && faults == old(faults)[t := seq(8 * n, _ => 0)]
    {
      SumZero(seq(8 * n, _ => 0)[..2 * n]);
      assert TaskOk(n, faults[t], total[t], group[t]);
      ReplaceOk(n, faults, total, group, groups, t, seq(8 * n, _ => 0), 0);
      faults, total := faults[t := seq(8 * n, _ => 0)], total[t := 0];
    }

    /** Task t and its group gain d at place i. */
    method AddFaults(t: nat, i: nat, d: int)
      requires Valid() && t < |faults| && i < |faults[t]| && 0 <= faults[t][i] + d
      modifies `faults, `total, `groups
      ensures Valid() && faults == old(faults)[t := old(faults)[t][i := old(faults)[t][i] + d]]
      ensures |groups| == |old(groups)| && (i >= 4 * n ==> groups == old(groups) && total == old(total))
    {
      hide TablesOk;
      TaskFacts(t);
      AddOk(n, faults, total, group, groups, t, i, d);
      faults := faults[t := faults[t][i := faults[t][i] + d]];
      if i < 2 * n { total := total[t := total[t] + d]; }
      if group[t] >= 0 && i < 4 * n { groups := groups[group[t] := GroupAdd(n, groups[group[t]], i, d)]; }
    }

    lemma TaskFacts(t: nat)
      requires Valid() && t < |faults|
      ensures |faults| == |total| == |group| && TaskOk(n, faults[t], total[t], group[t])
      ensures NoGroup <= group[t] < |groups|
      ensures group[t] >= 0 ==> |groups[group[t]].faults| == 4 * n
    {
    }

    // ---- Groups ----

    /** The task starts a group of its own with a copy of its averages. */
    method CreateGroup(t: nat)
      requires Valid() && t < |faults| && faults[t] != [] && group[t] == NoGroup
      modifies `group, `groups
      ensures Valid() && group == old(group)[t := |old(groups)|] && |groups| == |old(groups)| + 1
      ensures groups[..|old(groups)|] == old(groups) && groups[|old(groups)|].nrTasks == 1
    {
      hide TaskOk;
      TaskFacts(t);
      RowSize(t);
      var row := [];
      for i := 0 to 4 * n
        invariant |row| == i && forall j :: 0 <= j < i ==> row[j] == faults[t][j]
      {
        row := row + [faults[t][i]];
      }
      var g := |groups|;
      ghost var none := Group(seq(4 * n, _ => 0), 0, 0, 0);
      EmptyOk(n, faults, total, group, groups);
      var grp := Group(row, total[t], 1, 1);
      groups := groups + [grp];
      forall h | 0 <= h < |groups| ensures GroupOk(n, faults, total, group[t := g], groups[h], h) {
        ShiftOk(n, faults, total, group, if h == g then none else groups[h], groups[h], h, t, g);
      }
      group := group[t := g];
      forall u | 0 <= u < |faults| ensures TaskOk(n, faults[u], total[u], group[u]) {
        GroupFree(n, faults[u], total[u], old(group)[u], group[u]);
      }
    }

    lemma RowSize(t: nat)
      requires Valid() && t < |faults| && faults[t] != []
      ensures |faults[t]| == 8 * n && forall i :: 0 <= i < |faults[t]| ==> 0 <= faults[t][i]
    {
    }

    /** The averages of task t move from its group to group g. */
    method JoinGroup(t: nat, g: nat)
      requires Valid() && t < |faults| && faults[t] != [] && group[t] >= 0 && g < |groups| && g != group[t]
      modifies `group, `groups
      ensures Valid() && group == old(group)[t := g] && |groups| == |old(groups)|
    {
      hide TaskOk;
      TaskFacts(t);
      RowSize(t);
      var my := group[t];
      var row := faults[t];
      ghost var was := groups;
      assert GroupOk(n, faults, total, group, groups[my], my) && GroupOk(n, faults, total, group, groups[g], g);
      for i := 0 to 4 * n
        invariant group == old(group) && |groups| == |was|
        invariant forall h :: 0 <= h < |was| && h != my && h != g ==> groups[h] == was[h]
        invariant Shifting(was[my], groups[my], row, i, -1) && Shifting(was[g], groups[g], row, i, 1)
      {
        GroupCovers(n, faults, total, group, was, t, i);
        assert groups[my].faults[i] >= row[i];
        groups := groups[my := ShiftAt(groups[my], i, -row[i])];
        groups := groups[g := ShiftAt(groups[g], i, row[i])];
      }
      groups := groups[my := Less(groups[my], total[t])];
      groups := groups[g := More(groups[g], total[t])];
      forall h | 0 <= h < |groups| ensures GroupOk(n, faults, total, group[t := g], groups[h], h) {
        ShiftOk(n, faults, total, group, was[h], groups[h], h, t, g);
      }
      group := group[t := g];
      forall u | 0 <= u < |faults| ensures TaskOk(n, faults[u], total[u], group[u]) {
        GroupFree(n, faults[u], total[u], old(group)[u], group[u]);
      }
    }

    /** task_numa_group: `peer` is the task found on the cpu of the last access, or -1; `above`
        says whether its own group has the higher address; `related`, that the two share memory;
        `memory`, that there is room for a group of its own. A task in a group ends up in the
        peer's group exactly when they are related and that group is larger, or as large and not
        at a lower address. The reference taken on that group never fails: it has a member. */
    method TaskNumaGroup(t: nat, peer: int, above: bool, related: bool, memory: bool)
      requires Valid() && t < |faults| && faults[t] != [] && peer < |faults| && peer != t
      modifies `group, `groups
      ensures Valid() && |group| == |old(group)|
      ensures forall u :: 0 <= u < |group| && u != t ==> group[u] == old(group)[u]
      ensures group[t] == NoGroup <==> old(group)[t] == NoGroup && !memory
      ensures peer >= 0 && group[peer] >= 0 && group[t] >= 0 ==>
        var size := if old(group)[t] >= 0 then old(groups)[old(group)[t]].nrTasks else 1;
        var theirs := old(groups)[group[peer]].nrTasks;
        (group[t] == group[peer] <==>
          old(group)[t] == group[peer] || (related && (size < theirs || (size == theirs && !above))))
      ensures !(peer >= 0 && group[peer] >= 0) && group[t] >= 0 ==>
        group[t] == if old(group)[t] >= 0 then old(group)[t] else |old(groups)|
    {
      hide TaskOk, GroupOk;
      if group[t] == NoGroup {
        if !memory { return; }
        CreateGroup(t);
      }
      if peer < 0 || group[peer] == NoGroup || group[peer] == group[t] { return; }
      var my, grp := group[t], group[peer];
      if groups[my].nrTasks > groups[grp].nrTasks { return; }
      if groups[my].nrTasks == groups[grp].nrTasks && above { return; }
      if related {
        GroupCovers(n, faults, total, group, groups, peer, 0);
        assert groups[grp].refs > 0;
        JoinGroup(t, grp);
      }
    }

    /** The end of task_numa_fault: the pages go into the buffers, which no group sees. */
    method RecordFault(t: nat, memNode: nat, cpuNode: nat, priv: nat, pages: nat)
      requires Valid() && t < |faults| && faults[t] != [] && memNode < n && cpuNode < n && priv < 2
      modifies `faults, `total, `groups
      ensures Valid() && |old(faults)[t]| == 8 * n && groups == old(groups) && total == old(total)
      ensures var row := old(faults)[t]; var mem, cpu := Idx(n, MemBuf, memNode, priv), Idx(n, CpuBuf, cpuNode, priv);
        faults == old(faults)[t := row[mem := row[mem] + pages][cpu := row[cpu] + pages]]
    {
      hide Valid, Idx;
      RowSize(t);
      var mem, cpu := Idx(n, MemBuf, memNode, priv), Idx(n, CpuBuf, cpuNode, priv);
      IdxIsPlace(n, MemBuf, memNode, priv, CpuBuf, cpuNode, priv);
      IdxIsPlace(n, CpuBuf, cpuNode, priv, MemBuf, memNode, priv);
      AddFaults(t, mem, pages);
      AddFaults(t, cpu, pages);
    }

    /** task_numa_free */
    method Free(t: nat)
      requires Valid() && t < |faults|
      modifies `faults, `group, `groups
      ensures Valid() && faults == old(faults)[t := []] && group == old(group)[t := NoGroup]
      ensures |groups| == |old(groups)|
    {
      hide TaskOk;
      TaskFacts(t);
      if group[t] >= 0 { Leave(t); }
      hide *;
      assert TaskOk(n, [], total[t], NoGroup) by { NoRow(n, total[t]); }
      ReplaceOk(n, faults, total, group, groups, t, [], total[t]);
      assert total[t := total[t]] == total;
      faults := faults[t := []];
    }

    method Leave(t: nat)
      requires Valid() && t < |faults| && group[t] >= 0
      modifies `group, `groups
      ensures Valid() && group == old(group)[t := NoGroup] && |groups| == |old(groups)|
    {
      hide TaskOk;
      TaskFacts(t);
      InGroupHasRow(n, faults[t], total[t], group[t]);
      RowSize(t);
      var my := group[t];
      var row := faults[t];
      ghost var was := groups;
      assert GroupOk(n, faults, total, group, groups[my], my);
      for i := 0 to 4 * n
        invariant group == old(group) && |groups| == |was|
        invariant forall h :: 0 <= h < |was| && h != my ==> groups[h] == was[h]
        invariant Shifting(was[my], groups[my], row, i, -1)
      {
        GroupCovers(n, faults, total, group, was, t, i);
        assert groups[my].faults[i] >= row[i];
        groups := groups[my := ShiftAt(groups[my], i, -row[i])];
      }
      groups := groups[my := Less(groups[my], total[t])];
      forall h | 0 <= h < |groups| ensures GroupOk(n, faults, total, group[t := NoGroup], groups[h], h) {
        ShiftOk(n, faults, total, group, was[h], groups[h], h, t, NoGroup);
      }
      group := group[t := NoGroup];
      forall u | 0 <= u < |faults| ensures TaskOk(n, faults[u], total[u], group[u]) {
        GroupFree(n, faults[u], total[u], old(group)[u], group[u]);
      }
    }

    // ---- Faults ----

    /** The counts since the last scan are taken out of the buffers. */
    method EmptyBuffers(t: nat, nid: nat, priv: nat) returns (buf: nat, run: nat)
      requires Valid() && t < |faults| && faults[t] != [] && nid < n && priv < 2
      modifies `faults, `total, `groups
      ensures Valid() && |old(faults)[t]| == 8 * n && |groups| == |old(groups)|
      ensures var memBuf, cpuBuf := Idx(n, MemBuf, nid, priv), Idx(n, CpuBuf, nid, priv);
        && buf == old(faults)[t][memBuf] && run == old(faults)[t][cpuBuf]
        && faults == old(faults)[t := old(faults)[t][memBuf := 0][cpuBuf := 0]]
    {
      RowSize(t);
      hide Valid, Idx;
      var memBuf, cpuBuf := Idx(n, MemBuf, nid, priv), Idx(n, CpuBuf, nid, priv);
      PlacesApart(n, nid, priv, nid, priv);
      buf, run := faults[t][memBuf], faults[t][cpuBuf];
      AddFaults(t, memBuf, 0 - buf);
      AddFaults(t, cpuBuf, 0 - run);
    }

    /** One node and fault type of task_numa_placement. */
    method PlaceNode(t: nat, nid: nat, priv: nat, w: Window)
      requires Valid() && t < |faults| && faults[t] != [] && nid < n && priv < 2
      modifies `faults, `total, `groups
      ensures Valid() && |old(faults)[t]| == 8 * n && |groups| == |old(groups)|
      ensures faults == old(faults)[t := PlaceRow(n, old(faults)[t], nid, priv, w)]
    {
      hide Valid, CpuWeight, Idx, Distinct;
      var mem, cpu := Idx(n, Mem, nid, priv), Idx(n, Cpu, nid, priv);
      PlacesApart(n, nid, priv, nid, priv);
      var buf, run := EmptyBuffers(t, nid, priv);
      RowSize(t);
      WeightNonNegative(w, run);
      AddFaults(t, mem, buf - faults[t][mem] / 2);
      AddFaults(t, cpu, CpuWeight(w, run) - faults[t][cpu] / 2);
    }

    /** Both types of the last of `nodes`; the array was `row` before the placement. */
    method PlaceTypes(t: nat, nid: nat, w: Window, ghost row: seq<int>, ghost nodes: seq<nat>)
      requires Valid() && t < |faults| && |faults[t]| == 8 * n == |row| && nid < n
      requires nodes != [] && nodes[|nodes| - 1] == nid && PlacedSet(n, row, faults[t], nodes, 0, w)
      modifies `faults, `total, `groups
      ensures Valid() && |groups| == |old(groups)| && |faults| == |old(faults)|
      ensures |faults[t]| == 8 * n && faults == old(faults)[t := faults[t]] && PlacedSet(n, row, faults[t], nodes, 2, w)
    {
      hide Valid, PlacedSet, PlacedOnly, PlaceRow;
      assert n > 0;
      for priv := 0 to 2
        invariant Valid() && |faults| == |old(faults)| && |groups| == |old(groups)|
        invariant |faults[t]| == 8 * n && faults == old(faults)[t := faults[t]]
        invariant PlacedSet(n, row, faults[t], nodes, priv, w)
      {
        PlacedOnlyIs(n, faults[t], nid, priv, w);
        PlacedMore(n, row, faults[t], PlaceRow(n, faults[t], nid, priv, w), nodes, priv, w);
        PlaceNode(t, nid, priv, w);
      }
    }

    /** The decay of task_numa_placement over the online nodes: their averages are renewed, the
        entries of other nodes stay. */
    method TaskNumaPlacement(t: nat, online: seq<nat>, w: Window)
      requires Valid() && t < |faults| && faults[t] != [] && Distinct(online) && Within(online, n)
      modifies `faults, `total, `groups
      ensures Valid() && |faults| == |old(faults)| && |groups| == |old(groups)|
      ensures |faults[t]| == |old(faults)[t]| == 8 * n && faults == old(faults)[t := faults[t]]
      ensures PlacedSet(n, old(faults)[t], faults[t], online, 2, w)
    {
      RowSize(t);
      hide Valid, PlacedSet;
      ghost var row := faults[t];
      PlacedNone(n, row, w);
      for k := 0 to |online|
        invariant Valid() && |faults| == |old(faults)| && |groups| == |old(groups)|
        invariant |faults[t]| == 8 * n && faults == old(faults)[t := faults[t]]
        invariant PlacedSet(n, row, faults[t], online[..k], if k == 0 then 0 else 2, w)
      {
        NextNode(n, row, faults[t], online[..k], online[k], w);
        assert online[..k + 1] == online[..k] + [online[k]];
        PlaceTypes(t, online[k], w, row, online[..k + 1]);
      }
      assert online[..|online|] == online;
      if online == [] { PlacedNoNode(n, row, w); }
    }
  }
}
