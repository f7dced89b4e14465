/** The join measurement of scripts/check_table_joins.py: counts over grouped keys, and what they say of the rows. */
module TableJoins {
  import opened Basics

  /** A row's key columns; a NULL in any of them is no key. Values are compared as text here. */
  type Cells = seq<Option<string>>
  type Key = seq<string>

  predicate NonNull(cells: Cells) {
    forall cell :: cell in cells ==> cell.Some?
  }

  function KeyOf(cells: Cells): (key: Key)
    requires NonNull(cells)
    ensures |key| == |cells|
  {
    seq(|cells|, i requires 0 <= i < |cells| && cells[i].Some? => cells[i].value)
  }

  /** The keys of the rows without NULLs, in row order. */
  function Keys(rows: seq<Cells>): seq<Key> {
    if rows == [] then []
    else (if NonNull(rows[0]) then [KeyOf(rows[0])] else []) + Keys(rows[1..])
  }

  // ----- GROUP BY and sums over groups -----

  /** Sum over the distinct keys of c of multiplicity times weight. */
  ghost function GroupSum<K(!new)>(c: multiset<K>, weight: K -> nat): nat
    decreases |c|
  {
    if c == multiset{} then 0
    else
      var k :| k in c;
      c[k] * weight(k) + GroupSum(c[k := 0], weight)
  }

  lemma {:induction false} GroupSumTake<K(!new)>(c: multiset<K>, weight: K -> nat, k: K)
    ensures GroupSum(c, weight) == c[k] * weight(k) + GroupSum(c[k := 0], weight)
    decreases |c|
  {
    if c == multiset{} {
      assert c[k := 0] == c;
    } else {
      var first :| first in c && GroupSum(c, weight) == c[first] * weight(first) + GroupSum(c[first := 0], weight);
      if first != k {
        GroupSumTake(c[first := 0], weight, k);
        if k in c {
          GroupSumTake(c[k := 0], weight, first);
          assert c[k := 0][first := 0] == c[first := 0][k := 0];
        } else {
          assert c[k := 0] == c;
        }
      }
    }
  }

  lemma OneMore(n: nat, w: nat, rest: nat)
    ensures (n + 1) * w + rest == n * w + rest + w
  {
  }

  lemma GroupSumAdd<K(!new)>(c: multiset<K>, weight: K -> nat, k: K)
    ensures GroupSum(c + multiset{k}, weight) == GroupSum(c, weight) + weight(k)
  {
    var more := c + multiset{k};
    GroupSumTake(more, weight, k);
    GroupSumTake(c, weight, k);
    assert more[k := 0] == c[k := 0] && more[k] == c[k] + 1;
    OneMore(c[k], weight(k), GroupSum(c[k := 0], weight));
  }

  /** Row by row, the same sum. */
  function RowSum<K>(keys: seq<K>, weight: K -> nat): nat {
    if keys == [] then 0 else RowSum(keys[..|keys| - 1], weight) + weight(keys[|keys| - 1])
  }

  lemma {:induction false} GroupSumIsRowSum<K(!new)>(keys: seq<K>, weight: K -> nat)
    ensures GroupSum(multiset(keys), weight) == RowSum(keys, weight)
  {
    if keys != [] {
      var front, last := keys[..|keys| - 1], keys[|keys| - 1];
      GroupSumIsRowSum(front, weight);
      GroupSumAdd(multiset(front), weight, last);
      assert keys == front + [last];
    }
  }

  /** parent_rows of a key, and greatest(parent_rows, 1). */
  function Times<K(==)>(p: multiset<K>): K -> nat {
    k => p[k]
  }

  function TimesOrOne<K(==)>(p: multiset<K>): K -> nat {
    k => Max(p[k], 1)
  }

  function Ones<K>(): K -> nat {
    _ => 1
  }

  // ----- the measured numbers -----

  datatype Measure = Measure(keys: nat, missing: nat, childInputRows: nat, childNonnullRows: nat, parentInputRows: nat,
                             parentDistinctKeys: nat, parentDuplicateKeys: nat, maxParentMultiplicity: nat,
                             maxMatchedMultiplicity: nat, innerJoinRows: nat, leftJoinNonnullRows: nat)

  /** The grouped keys, without their counts. */
  ghost function Grouped<K(!new)>(c: multiset<K>): set<K> {
    set k | k in c
  }

  /** max(parent_rows) over some keys, repeats allowed; 0 for none. */
  function Greatest<K(==)>(keys: seq<K>, p: multiset<K>): nat {
    if keys == [] then 0 else Max(p[keys[|keys| - 1]], Greatest(keys[..|keys| - 1], p))
  }

  /** The SELECT over c LEFT JOIN p, both grouped. */
  ghost function Measured(child: seq<Cells>, parent: seq<Cells>): Measure {
    var c, p := multiset(Keys(child)), multiset(Keys(parent));
    Measure(|Grouped(c)|, |set k | k in c && k !in p|, |child|, GroupSum(c, Ones()), |parent|,
            |Grouped(p)|, |set k | k in p && p[k] > 1|, Greatest(Keys(parent), p), Greatest(Keys(child), p),
            GroupSum(c, Times(p)), GroupSum(c, TimesOrOne(p)))
  }

  // ----- the joins they stand for -----

  predicate Joins(child: Cells, parent: Cells) {
    NonNull(child) && NonNull(parent) && KeyOf(child) == KeyOf(parent)
  }

  /** The parent rows one child row joins, in order. */
  function Partners(row: Cells, parent: seq<Cells>): seq<nat> {
    if parent == [] then []
    else
      var n := |parent| - 1;
      Partners(row, parent[..n]) + if Joins(row, parent[n]) then [n] else []
  }

  function Paired(i: nat, js: seq<nat>): (r: seq<(nat, nat)>)
    ensures |r| == |js|
  {
    seq(|js|, k requires 0 <= k < |js| => (i, js[k]))
  }

  /** The inner join as two nested loops list it: (child row, parent row) pairs with equal non-null keys. */
  function InnerJoin(child: seq<Cells>, parent: seq<Cells>): seq<(nat, nat)> {
    if child == [] then []
    else
      var n := |child| - 1;
      InnerJoin(child[..n], parent) + Paired(n, Partners(child[n], parent))
  }

  /** Child rows without NULLs that join no parent row: a left join keeps each once. */
  function Unmatched(child: seq<Cells>, parent: seq<Cells>): seq<nat> {
    if child == [] then []
    else
      var n := |child| - 1;
      Unmatched(child[..n], parent) + if NonNull(child[n]) && Partners(child[n], parent) == [] then [n] else []
  }

  lemma {:induction false} PartnersAre(row: Cells, parent: seq<Cells>, j: nat)
    ensures j in Partners(row, parent) <==> j < |parent| && Joins(row, parent[j])
    ensures Distinct(Partners(row, parent))
  {
    if parent != [] {
      var front := parent[..|parent| - 1];
      PartnersAre(row, front, j);
      PartnersAre(row, front, |front|);
      assert forall k :: 0 <= k < |Partners(row, front)| ==> Partners(row, front)[k] in Partners(row, front);
    }
  }

  /** The SQL condition, column by column: both cells are there and equal. */
  ghost predicate SameCells(a: Cells, b: Cells) {
    |a| == |b| && forall i :: 0 <= i < |a| ==> a[i].Some? && a[i] == b[i]
  }

  lemma JoinsIffSameCells(a: Cells, b: Cells)
    ensures Joins(a, b) <==> SameCells(a, b)
  {
    if SameCells(a, b) {
      assert a == b;
      assert forall cell :: cell in a ==> cell.Some?;
    } else if NonNull(a) && NonNull(b) && |a| == |b| {
      var i :| 0 <= i < |a| && (a[i].None? || a[i] != b[i]);
      assert a[i] in a && b[i] in b;
      assert KeyOf(a)[i] != KeyOf(b)[i];
    }
  }

  /** Every pair of rows with equal cells is listed, once; and the rest are the child rows without NULLs that have no such
      partner, each once. */
  lemma JoinsListTheRows(child: seq<Cells>, parent: seq<Cells>, i: nat, j: nat)
    ensures (i, j) in InnerJoin(child, parent) <==> i < |child| && j < |parent| && SameCells(child[i], parent[j])
    ensures Distinct(InnerJoin(child, parent)) && Distinct(Unmatched(child, parent))
    ensures i in Unmatched(child, parent) <==>
      i < |child| && None !in child[i] && forall j: nat :: j < |parent| ==> !SameCells(child[i], parent[j])
  {
    InnerJoinIsAllPairs(child, parent, i, j);
    UnmatchedAre(child, parent, i);
    if i < |child| {
      forall k: nat | k < |parent|
        ensures Joins(child[i], parent[k]) <==> SameCells(child[i], parent[k])
      {
        JoinsIffSameCells(child[i], parent[k]);
      }
    }
  }

  lemma {:induction false} UnmatchedAre(child: seq<Cells>, parent: seq<Cells>, i: nat)
    ensures i in Unmatched(child, parent) <==>
      i < |child| && None !in child[i] && forall j: nat :: j < |parent| ==> !Joins(child[i], parent[j])
    ensures forall k :: k in Unmatched(child, parent) ==> k < |child|
    ensures Distinct(Unmatched(child, parent))
  {
    if child != [] {
      var n := |child| - 1;
      UnmatchedAre(child[..n], parent, i);
      if i == n {
        NoPartnersIff(child[n], parent);
      }
      assert forall k :: 0 <= k < |Unmatched(child[..n], parent)| ==> Unmatched(child[..n], parent)[k] in Unmatched(child[..n], parent);
    }
  }

  lemma NoPartnersIff(row: Cells, parent: seq<Cells>)
    ensures Partners(row, parent) == [] <==> forall j: nat :: j < |parent| ==> !Joins(row, parent[j])
  {
    forall j: nat
      ensures j in Partners(row, parent) <==> j < |parent| && Joins(row, parent[j])
    {
      PartnersAre(row, parent, j);
    }
    if Partners(row, parent) != [] {
      assert Partners(row, parent)[0] in Partners(row, parent);
    }
  }

  /** The pairs the nested loops list, by the rows' keys. */
  lemma {:induction false} InnerJoinIsAllPairs(child: seq<Cells>, parent: seq<Cells>, i: nat, j: nat)
    ensures (i, j) in InnerJoin(child, parent) <==> i < |child| && j < |parent| && Joins(child[i], parent[j])
    ensures Distinct(InnerJoin(child, parent))
  {
    if child != [] {
      var front, n := child[..|child| - 1], |child| - 1;
      var last := Paired(n, Partners(child[n], parent));
      InnerJoinIsAllPairs(front, parent, i, j);
      PartnersAre(child[n], parent, j);
      PairedAre(n, Partners(child[n], parent), i, j);
      forall k, l | 0 <= k < |InnerJoin(front, parent)| && 0 <= l < |last|
        ensures InnerJoin(front, parent)[k] != last[l]
      {
        InnerJoinIsAllPairs(front, parent, n, last[l].1);
        assert InnerJoin(front, parent)[k] in InnerJoin(front, parent);
      }
    }
  }

  lemma PairedAre(n: nat, js: seq<nat>, i: nat, j: nat)
    requires Distinct(js)
    ensures (i, j) in Paired(n, js) <==> i == n && j in js
    ensures Distinct(Paired(n, js))
  {
    if i == n && j in js {
      var k :| 0 <= k < |js| && js[k] == j;
      assert Paired(n, js)[k] == (i, j);
    }
  }

  lemma KeysSnoc(rows: seq<Cells>, row: Cells)
    ensures Keys(rows + [row]) == Keys(rows) + if NonNull(row) then [KeyOf(row)] else []
  {
    if rows == [] {
      assert rows + [row] == [row];
      assert [row][1..] == [];
    } else {
      KeysSnoc(rows[1..], row);
      assert (rows + [row])[1..] == rows[1..] + [row];
    }
  }

  lemma KeyCountSnoc(front: seq<Cells>, last: Cells, key: Key)
    ensures multiset(Keys(front + [last]))[key]
         == multiset(Keys(front))[key] + if NonNull(last) && KeyOf(last) == key then 1 else 0
  {
    KeysSnoc(front, last);
  }

  lemma PartnersSnoc(row: Cells, front: seq<Cells>, last: Cells)
    requires NonNull(row)
    ensures |Partners(row, front + [last])|
         == |Partners(row, front)| + if NonNull(last) && KeyOf(last) == KeyOf(row) then 1 else 0
  {
    assert (front + [last])[..|front|] == front;
  }

  /** A child row joins as many parent rows as its key's group holds. */
  lemma {:induction false} PartnersCount(row: Cells, parent: seq<Cells>)
    requires NonNull(row)
    ensures |Partners(row, parent)| == multiset(Keys(parent))[KeyOf(row)]
  {
    if parent != [] {
      var front, last := parent[..|parent| - 1], parent[|parent| - 1];
      PartnersCount(row, front);
      assert parent == front + [last];
      KeyCountSnoc(front, last, KeyOf(row));
      PartnersSnoc(row, front, last);
    }
  }

  lemma {:induction false} NullHasNoPartners(row: Cells, parent: seq<Cells>)
    requires !NonNull(row)
    ensures Partners(row, parent) == []
  {
    if parent != [] {
      NullHasNoPartners(row, parent[..|parent| - 1]);
    }
  }

  lemma InnerJoinSnoc(child: seq<Cells>, row: Cells, parent: seq<Cells>)
    ensures |InnerJoin(child + [row], parent)| == |InnerJoin(child, parent)| + |Partners(row, parent)|
    ensures |Unmatched(child + [row], parent)| ==
            |Unmatched(child, parent)| + if NonNull(row) && Partners(row, parent) == [] then 1 else 0
  {
    assert (child + [row])[..|child|] == child;
  }

  /** One more child row adds as much to each sum as to each join. */
  lemma RowAdds(child: seq<Cells>, row: Cells, parent: seq<Cells>)
    ensures var p := multiset(Keys(parent));
      && RowSum(Keys(child + [row]), Times(p)) == RowSum(Keys(child), Times(p)) + |Partners(row, parent)|
      && RowSum(Keys(child + [row]), TimesOrOne(p)) == RowSum(Keys(child), TimesOrOne(p)) + |Partners(row, parent)|
           + if NonNull(row) && Partners(row, parent) == [] then 1 else 0
  {
    var p := multiset(Keys(parent));
    KeysSnoc(child, row);
    if NonNull(row) {
      PartnersCount(row, parent);
      RowSumSnoc(Keys(child), KeyOf(row), Times(p));
      RowSumSnoc(Keys(child), KeyOf(row), TimesOrOne(p));
    } else {
      NullHasNoPartners(row, parent);
      assert Keys(child) + [] == Keys(child);
    }
  }

  lemma {:induction false} RowSumIsInner(child: seq<Cells>, parent: seq<Cells>)
    ensures RowSum(Keys(child), Times(multiset(Keys(parent)))) == |InnerJoin(child, parent)|
  {
    if child != [] {
      var front, row := child[..|child| - 1], child[|child| - 1];
      assert child == front + [row];
      RowSumIsInner(front, parent);
      RowAdds(front, row, parent);
      InnerJoinSnoc(front, row, parent);
    }
  }

  lemma {:induction false} RowSumIsLeft(child: seq<Cells>, parent: seq<Cells>)
    ensures RowSum(Keys(child), TimesOrOne(multiset(Keys(parent)))) == |InnerJoin(child, parent)| + |Unmatched(child, parent)|
  {
    if child != [] {
      var front, row := child[..|child| - 1], child[|child| - 1];
      assert child == front + [row];
      RowSumIsLeft(front, parent);
      RowAdds(front, row, parent);
      InnerJoinSnoc(front, row, parent);
    }
  }

  lemma RowSumSnoc<K>(keys: seq<K>, k: K, weight: K -> nat)
    ensures RowSum(keys + [k], weight) == RowSum(keys, weight) + weight(k)
  {
    assert (keys + [k])[..|keys|] == keys;
  }

  lemma {:induction false} RowSumOnes<K>(keys: seq<K>)
    ensures RowSum(keys, Ones()) == |keys|
  {
    if keys != [] {
      RowSumOnes(keys[..|keys| - 1]);
    }
  }

  lemma {:induction false} GreatestBounds<K>(keys: seq<K>, p: multiset<K>, k: K)
    requires k in keys
    ensures p[k] <= Greatest(keys, p)
  {
    if keys[|keys| - 1] != k {
      GreatestBounds(keys[..|keys| - 1], p, k);
    }
  }

  lemma {:induction false} GreatestReached<K>(keys: seq<K>, p: multiset<K>)
    requires Greatest(keys, p) > 0
    ensures exists k :: k in keys && p[k] == Greatest(keys, p)
  {
    var front, last := keys[..|keys| - 1], keys[|keys| - 1];
    if Greatest(keys, p) == p[last] {
      assert last in keys;
    } else {
      GreatestReached(front, p);
      var k :| k in front && p[k] == Greatest(front, p);
      assert k in keys;
    }
  }

  lemma {:induction false} RowSumAtMostOnes<K>(keys: seq<K>, p: multiset<K>)
    requires forall k :: p[k] <= 1
    ensures RowSum(keys, Times(p)) <= |keys|
    ensures RowSum(keys, Times(p)) == |keys| <==> forall k :: k in keys ==> k in p
  {
    if keys != [] {
      var front, last := keys[..|keys| - 1], keys[|keys| - 1];
      RowSumAtMostOnes(front, p);
      assert keys == front + [last];
    }
  }

  lemma NoKeyTwice(parent: seq<Cells>)
    requires Greatest(Keys(parent), multiset(Keys(parent))) <= 1
    ensures forall k :: multiset(Keys(parent))[k] <= 1
  {
    var p := multiset(Keys(parent));
    forall k
      ensures p[k] <= 1
    {
      if k in p {
        GreatestBounds(Keys(parent), p, k);
      }
    }
  }

  /** No grouped child key is missing from the parent's groups exactly when no child row's key is. */
  lemma NothingMissing(child: seq<Cells>, parent: seq<Cells>)
    ensures Measured(child, parent).missing == 0 <==> forall k :: k in Keys(child) ==> k in multiset(Keys(parent))
  {
    var c, p := multiset(Keys(child)), multiset(Keys(parent));
    var missing := set k | k in c && k !in p;
    assert Measured(child, parent).missing == |missing|;
    if missing != {} {
      var k: Key :| k in missing;
      assert k in Keys(child);
    }
    forall k | k in Keys(child) && k !in p
      ensures k in missing
    {
    }
  }

  lemma MeasuredSums(child: seq<Cells>, parent: seq<Cells>)
    ensures var m := Measured(child, parent);
      var p := multiset(Keys(parent));
      && m.innerJoinRows == RowSum(Keys(child), Times(p)) && m.leftJoinNonnullRows == RowSum(Keys(child), TimesOrOne(p))
      && m.childNonnullRows == |Keys(child)|
  {
    var p := multiset(Keys(parent));
    GroupSumIsRowSum(Keys(child), Times(p));
    GroupSumIsRowSum(Keys(child), TimesOrOne(p));
    GroupSumIsRowSum(Keys(child), Ones());
    RowSumOnes(Keys(child));
  }

  /** With a parent unique on the key, the inner join never has more rows than the child has keys, and has as many
      exactly when no key is missing; the left join has exactly as many. */
  lemma UniqueParentNeverAmplifies(child: seq<Cells>, parent: seq<Cells>)
    requires Measured(child, parent).maxParentMultiplicity <= 1
    ensures var m := Measured(child, parent);
      && m.innerJoinRows <= m.childNonnullRows
      && (m.innerJoinRows == m.childNonnullRows <==> m.missing == 0)
      && m.leftJoinNonnullRows == m.childNonnullRows
  {
    NoKeyTwice(parent);
    MeasuredSums(child, parent);
    RowSumAtMostOnes(Keys(child), multiset(Keys(parent)));
    RowSumMaxOnes(Keys(child), multiset(Keys(parent)));
    NothingMissing(child, parent);
  }

  lemma {:induction false} RowSumMaxOnes<K>(keys: seq<K>, p: multiset<K>)
    requires forall k :: p[k] <= 1
    ensures RowSum(keys, TimesOrOne(p)) == |keys|
  {
    if keys != [] {
      RowSumMaxOnes(keys[..|keys| - 1], p);
    }
  }

  /** The grouped sums are the row counts of the joins themselves. */
  lemma JoinCounts(child: seq<Cells>, parent: seq<Cells>)
    ensures Measured(child, parent).innerJoinRows == |InnerJoin(child, parent)|
    ensures Measured(child, parent).leftJoinNonnullRows == |InnerJoin(child, parent)| + |Unmatched(child, parent)|
  {
    MeasuredSums(child, parent);
    RowSumIsInner(child, parent);
    RowSumIsLeft(child, parent);
  }

  // ----- the verdict -----

  datatype Cardinality = One | Many
  datatype Status = Empty | Emptied | Unbaselined | Holds | Lag | Below | Multiplicity

  /** A declared join with the distinct keys and orphans once measured for it. */
  datatype Declared = Declared(baselineKeys: nat, baselineMissing: nat, cardinality: Cardinality)

  const LAG_MIN := 3
  const LAG_SHARE := 0.0001

  function Ceil(x: real): int {
    -(-x).Floor
  }

  function Resolved(keys: nat, missing: nat): real
    requires keys > 0
  {
    100.0 * (keys - missing) as real / keys as real
  }

  /** The baseline percentage cut after four decimals; none without baseline keys. */
  function FloorPct(join: Declared): Option<real> {
    if join.baselineKeys == 0 then None
    else Some((Resolved(join.baselineKeys, join.baselineMissing) * 10000.0).Floor as real / 10000.0)
  }

  function AdmittedMissing(join: Declared, keys: nat): int {
    match FloorPct(join)
    case None => 0
    case Some(floor) => keys - Ceil(keys as real * floor / 100.0)
  }

  function LagAllowance(keys: nat): int {
    Max(LAG_MIN, Ceil(keys as real * LAG_SHARE))
  }

  function Verdict(join: Declared, keys: nat, missing: nat): Status {
    match FloorPct(join)
    case None => if keys == 0 then Empty else Unbaselined
    case Some(floor) =>
      if keys == 0 then Emptied
      else if Resolved(keys, missing) >= floor then Holds
      else if missing <= AdmittedMissing(join, keys) + LagAllowance(keys) then Lag
      else Below
  }

  lemma DivideAtLeast(a: real, k: real, f: real)
    requires k > 0.0
    ensures a / k >= f <==> a >= f * k
  {
    assert a == (a / k) * k;
    if a / k >= f {
      assert (a / k - f) * k >= 0.0;
    } else {
      assert (f - a / k) * k > 0.0;
    }
  }

  lemma CeilIsLeast(x: real, n: int)
    ensures n >= Ceil(x) <==> n as real >= x
  {
  }

  /** admitted_missing is the most orphans that still meet the floor. */
  lemma AdmittedIsTheMost(join: Declared, keys: nat, missing: nat)
    requires keys > 0 && join.baselineKeys > 0
    ensures Resolved(keys, missing) >= FloorPct(join).value <==> missing <= AdmittedMissing(join, keys)
  {
    var floor := FloorPct(join).value;
    DivideAtLeast(100.0 * (keys - missing) as real, keys as real, floor);
    CeilIsLeast(keys as real * floor / 100.0, keys - missing);
    assert keys as real * floor == floor * keys as real;
  }

  /** Without a baseline nothing is admitted. */
  lemma NothingAdmittedUnmeasured(join: Declared, keys: nat)
    requires join.baselineKeys == 0
    ensures FloorPct(join).None? && AdmittedMissing(join, keys) == 0
  {
  }

  /** The floor lies less than a ten-thousandth below the baseline, never above it. */
  lemma FloorNearBaseline(join: Declared)
    requires join.baselineKeys > 0
    ensures FloorPct(join).Some?
    ensures FloorPct(join).value <= Resolved(join.baselineKeys, join.baselineMissing) < FloorPct(join).value + 0.0001
  {
  }

  /** The lag allowance is the least whole number of at least LAG_MIN keys and LAG_SHARE of the keys. */
  lemma LagIsLeast(keys: nat, n: int)
    ensures n >= LagAllowance(keys) <==> n >= LAG_MIN && n as real >= keys as real * LAG_SHARE
  {
    CeilIsLeast(keys as real * LAG_SHARE, n);
  }

  /** The status measure reports: a multiplied one-cardinality parent overrides the verdict. */
  ghost function StatusOf(join: Declared, child: seq<Cells>, parent: seq<Cells>): Status {
    var m := Measured(child, parent);
    if join.cardinality == One && m.maxParentMultiplicity > 1 then Multiplicity else Verdict(join, m.keys, m.missing)
  }

  /** The keys of the rows, and those of them that some row on the other side has too. */
  ghost function DistinctKeys(rows: seq<Cells>): set<Key> {
    set row | row in rows && NonNull(row) :: KeyOf(row)
  }

  ghost function PartneredKeys(child: seq<Cells>, parent: seq<Cells>): set<Key> {
    DistinctKeys(child) * DistinctKeys(parent)
  }

  lemma {:induction false} KeysAreDistinctKeys(rows: seq<Cells>)
    ensures forall k :: k in Keys(rows) <==> k in DistinctKeys(rows)
  {
    if rows != [] {
      KeysAreDistinctKeys(rows[1..]);
      assert rows == [rows[0]] + rows[1..];
      assert forall k :: k in DistinctKeys(rows) <==> k in DistinctKeys(rows[1..]) || (NonNull(rows[0]) && k == KeyOf(rows[0]));
    }
  }

  lemma MeasuredKeys(child: seq<Cells>, parent: seq<Cells>)
    ensures Measured(child, parent).keys == |DistinctKeys(child)|
    ensures Measured(child, parent).keys == |PartneredKeys(child, parent)| + |DistinctKeys(child) - DistinctKeys(parent)|
    ensures Measured(child, parent).missing == |DistinctKeys(child) - DistinctKeys(parent)|
  {
    KeysAreDistinctKeys(child);
    KeysAreDistinctKeys(parent);
    var c, p := multiset(Keys(child)), multiset(Keys(parent));
    assert Grouped(c) == DistinctKeys(child);
    assert (set k | k in c && k !in p) == DistinctKeys(child) - DistinctKeys(parent);
    assert DistinctKeys(child) == PartneredKeys(child, parent) + (DistinctKeys(child) - DistinctKeys(parent));
  }

  /** The numbers of the rows that carry this key. */
  ghost function RowsOfKey(rows: seq<Cells>, k: Key): set<nat> {
    set i: nat | i < |rows| && NonNull(rows[i]) && KeyOf(rows[i]) == k
  }

  ghost function KeyedRows(rows: seq<Cells>): set<nat> {
    set i: nat | i < |rows| && NonNull(rows[i])
  }

  lemma RowsOfKeySnoc(front: seq<Cells>, last: Cells, k: Key)
    ensures |RowsOfKey(front + [last], k)|
         == |RowsOfKey(front, k)| + if NonNull(last) && KeyOf(last) == k then 1 else 0
  {
    var before, after := RowsOfKey(front, k), RowsOfKey(front + [last], k);
    assert forall i: nat :: i < |front| ==> (front + [last])[i] == front[i];
    OneMorePosition(before, after, |front|, NonNull(last) && KeyOf(last) == k);
  }

  lemma KeyedRowsSnoc(front: seq<Cells>, last: Cells)
    ensures |KeyedRows(front + [last])| == |KeyedRows(front)| + if NonNull(last) then 1 else 0
  {
    var before, after := KeyedRows(front), KeyedRows(front + [last]);
    assert forall i: nat :: i < |front| ==> (front + [last])[i] == front[i];
    OneMorePosition(before, after, |front|, NonNull(last));
  }

  /** A key's group counts its rows. */
  lemma {:induction false} GroupCountsRows(rows: seq<Cells>, k: Key)
    ensures multiset(Keys(rows))[k] == |RowsOfKey(rows, k)|
    ensures |Keys(rows)| == |KeyedRows(rows)|
  {
    if rows == [] {
      assert RowsOfKey(rows, k) == {} && KeyedRows(rows) == {};
    } else {
      var front, last := rows[..|rows| - 1], rows[|rows| - 1];
      GroupCountsRows(front, k);
      assert rows == front + [last];
      KeyCountSnoc(front, last, k);
      KeysSnoc(front, last);
      RowsOfKeySnoc(front, last, k);
      KeyedRowsSnoc(front, last);
    }
  }

  /** `most` is the largest number of rows that one of these keys has; 0 without keys. */
  ghost predicate IsMost(most: nat, keys: set<Key>, rows: seq<Cells>) {
    && (forall k :: k in keys ==> |RowsOfKey(rows, k)| <= most)
    && (most > 0 ==> exists k :: k in keys && |RowsOfKey(rows, k)| == most)
  }

  lemma GreatestIsMost(others: seq<Cells>, rows: seq<Cells>)
    ensures IsMost(Greatest(Keys(others), multiset(Keys(rows))), DistinctKeys(others), rows)
  {
    var p, most := multiset(Keys(rows)), Greatest(Keys(others), multiset(Keys(rows)));
    KeysAreDistinctKeys(others);
    forall k
      ensures p[k] == |RowsOfKey(rows, k)| && (k in DistinctKeys(others) ==> p[k] <= most)
    {
      GroupCountsRows(rows, k);
      if k in Keys(others) {
        GreatestBounds(Keys(others), p, k);
      }
    }
    if most > 0 {
      GreatestReached(Keys(others), p);
    }
  }

  /** The other numbers reported, over the rows themselves. */
  lemma MeasuredCounts(child: seq<Cells>, parent: seq<Cells>)
    ensures var m := Measured(child, parent);
      && m.childInputRows == |child| && m.parentInputRows == |parent| && m.childNonnullRows == |KeyedRows(child)|
      && m.parentDistinctKeys == |DistinctKeys(parent)|
      && m.parentDuplicateKeys == |set k | k in DistinctKeys(parent) && |RowsOfKey(parent, k)| > 1|
      && IsMost(m.maxParentMultiplicity, DistinctKeys(parent), parent)
      && IsMost(m.maxMatchedMultiplicity, DistinctKeys(child), parent)
  {
    var p := multiset(Keys(parent));
    MeasuredSums(child, parent);
    KeysAreDistinctKeys(parent);
    GreatestIsMost(parent, parent);
    GreatestIsMost(child, parent);
    GroupCountsRows(child, []);
    forall k
      ensures p[k] == |RowsOfKey(parent, k)|
    {
      GroupCountsRows(parent, k);
    }
    assert Grouped(p) == DistinctKeys(parent);
    assert (set k | k in p && p[k] > 1) == (set k | k in DistinctKeys(parent) && |RowsOfKey(parent, k)| > 1);
  }

  /** What each status but MULTIPLICITY says of the child's distinct keys, `partnered` of them found in the parent and
      `orphans` not, against the percentage once measured, cut after four decimals. */
  ghost predicate StatusFits(join: Declared, partnered: nat, orphans: nat, status: Status) {
    var keys := partnered + orphans;
    && (status == Empty <==> keys == 0 && join.baselineKeys == 0)
    && (status == Emptied <==> keys == 0 && join.baselineKeys > 0)
    && (status == Unbaselined <==> keys > 0 && join.baselineKeys == 0)
    && (status == Holds <==> keys > 0 && join.baselineKeys > 0 && MeetsFloor(join, partnered, keys))
    && (status == Below <==> keys > 0 && join.baselineKeys > 0 && orphans > AdmittedMissing(join, keys) + LagAllowance(keys))
    && status != Multiplicity
  }

  ghost predicate MeetsFloor(join: Declared, partnered: nat, keys: nat)
    requires join.baselineKeys > 0
  {
    100.0 * partnered as real >= FloorPct(join).value * keys as real
  }

  lemma MeetsFloorIff(join: Declared, partnered: nat, orphans: nat)
    requires join.baselineKeys > 0 && partnered + orphans > 0
    ensures var keys := partnered + orphans;
      && (MeetsFloor(join, partnered, keys) <==> Resolved(keys, orphans) >= FloorPct(join).value)
      && (MeetsFloor(join, partnered, keys) <==> orphans <= AdmittedMissing(join, keys))
  {
    var keys := partnered + orphans;
    assert keys - orphans == partnered;
    DivideAtLeast(100.0 * partnered as real, keys as real, FloorPct(join).value);
    AdmittedIsTheMost(join, keys, orphans);
  }

  lemma VerdictMeaning(join: Declared, partnered: nat, orphans: nat)
    ensures StatusFits(join, partnered, orphans, Verdict(join, partnered + orphans, orphans))
  {
    var keys := partnered + orphans;
    if keys > 0 && join.baselineKeys > 0 {
      MeetsFloorIff(join, partnered, orphans);
      LagIsLeast(keys, LagAllowance(keys));
    }
  }

  lemma StatusMeaning(join: Declared, child: seq<Cells>, parent: seq<Cells>)
    requires join.cardinality == One ==> NoTwoJoin(parent)
    ensures StatusFits(join, |PartneredKeys(child, parent)|, |DistinctKeys(child) - DistinctKeys(parent)|,
                       StatusOf(join, child, parent))
  {
    var partnered, orphans := |PartneredKeys(child, parent)|, |DistinctKeys(child) - DistinctKeys(parent)|;
    StatusIsVerdict(join, child, parent);
    MeasuredKeys(child, parent);
    StatusOfCounts(join, partnered, orphans, StatusOf(join, child, parent));
  }

  lemma StatusIsVerdict(join: Declared, child: seq<Cells>, parent: seq<Cells>)
    requires join.cardinality == One ==> NoTwoJoin(parent)
    ensures StatusOf(join, child, parent) == Verdict(join, Measured(child, parent).keys, Measured(child, parent).missing)
  {
    UniqueKeysIff(parent);
  }

  lemma StatusOfCounts(join: Declared, partnered: nat, orphans: nat, status: Status)
    requires status == Verdict(join, partnered + orphans, orphans)
    ensures StatusFits(join, partnered, orphans, status)
  {
    VerdictMeaning(join, partnered, orphans);
  }

  lemma FloorAtMostAll(join: Declared)
    requires join.baselineKeys > 0
    ensures FloorPct(join).value <= 100.0
  {
    FloorNearBaseline(join);
    var keys, missing := join.baselineKeys as real, join.baselineMissing as real;
    DivideAtLeast(-100.0 * (keys - missing), keys, -100.0);
    assert Resolved(join.baselineKeys, join.baselineMissing) == 100.0 * (keys - missing) / keys;
    assert -(100.0 * (keys - missing) / keys) == -100.0 * (keys - missing) / keys;
  }

  lemma AtMostAll(floor: real, keys: real)
    requires floor <= 100.0 && keys >= 0.0
    ensures 100.0 * keys >= floor * keys
  {
  }

  /** A join with keys and without orphans holds, whatever was measured before. */
  lemma FullyResolvedHolds(join: Declared, child: seq<Cells>, parent: seq<Cells>)
    requires join.cardinality == One ==> NoTwoJoin(parent)
    requires join.baselineKeys > 0 && DistinctKeys(child) != {} && DistinctKeys(child) <= DistinctKeys(parent)
    ensures StatusOf(join, child, parent) == Holds
  {
    StatusIsVerdict(join, child, parent);
    MeasuredKeys(child, parent);
    assert DistinctKeys(child) - DistinctKeys(parent) == {};
    HoldsWithoutOrphans(join, Measured(child, parent).keys);
  }

  lemma HoldsWithoutOrphans(join: Declared, keys: nat)
    requires join.baselineKeys > 0 && keys > 0
    ensures Verdict(join, keys, 0) == Holds
  {
    VerdictMeaning(join, keys, 0);
    FloorAtMostAll(join);
    AtMostAll(FloorPct(join).value, keys as real);
  }

  /** Data as good as at its baseline holds. */
  lemma BaselineHolds(join: Declared)
    requires join.baselineKeys > 0
    ensures Verdict(join, join.baselineKeys, join.baselineMissing) == Holds
  {
    FloorNearBaseline(join);
  }

  lemma StatusIsMultiplicityIff(join: Declared, child: seq<Cells>, parent: seq<Cells>)
    requires join.cardinality == One
    ensures StatusOf(join, child, parent) == Multiplicity <==> Measured(child, parent).maxParentMultiplicity > 1
    ensures Measured(child, parent).maxParentMultiplicity == Greatest(Keys(parent), multiset(Keys(parent)))
  {
  }

  /** A join declared to reach one parent row and not reported as MULTIPLICITY never adds rows: each child row joins at
      most one parent row. */
  lemma OneMeansOne(join: Declared, child: seq<Cells>, parent: seq<Cells>)
    requires join.cardinality == One
    ensures StatusOf(join, child, parent) != Multiplicity
            <==> NoTwoJoin(parent)
    ensures StatusOf(join, child, parent) != Multiplicity ==>
              |InnerJoin(child, parent)| + |Unmatched(child, parent)| == |Keys(child)|
  {
    UniqueKeysIff(parent);
    StatusIsMultiplicityIff(join, child, parent);
    if StatusOf(join, child, parent) != Multiplicity {
      UniqueParentNeverAmplifies(child, parent);
      JoinCounts(child, parent);
      MeasuredSums(child, parent);
    }
  }

  /** No two parent rows share a key. */
  ghost predicate NoTwoJoin(parent: seq<Cells>) {
    forall i, j :: 0 <= i < j < |parent| ==> !SameCells(parent[i], parent[j])
  }

  lemma JoinedRowsRepeatAKey(parent: seq<Cells>, i: nat, j: nat)
    requires i < j < |parent| && Joins(parent[i], parent[j])
    ensures Greatest(Keys(parent), multiset(Keys(parent))) > 1
  {
    if Greatest(Keys(parent), multiset(Keys(parent))) <= 1 {
      NoKeyTwice(parent);
      PartnersCount(parent[i], parent);
      PartnersAre(parent[i], parent, i);
      PartnersAre(parent[i], parent, j);
      TwoElements(Partners(parent[i], parent), i, j);
    }
  }

  lemma UniqueKeysIff(parent: seq<Cells>)
    ensures Greatest(Keys(parent), multiset(Keys(parent))) <= 1 <==> NoTwoJoin(parent)
  {
    if !NoTwoJoin(parent) {
      var i, j :| 0 <= i < j < |parent| && SameCells(parent[i], parent[j]);
      JoinsIffSameCells(parent[i], parent[j]);
      JoinedRowsRepeatAKey(parent, i, j);
    }
    if Greatest(Keys(parent), multiset(Keys(parent))) > 1 {
      KeyTwice(parent);
    }
  }

  lemma KeyTwice(parent: seq<Cells>)
    requires Greatest(Keys(parent), multiset(Keys(parent))) > 1
    ensures !NoTwoJoin(parent)
  {
    GreatestReached(Keys(parent), multiset(Keys(parent)));
    var k :| k in Keys(parent) && multiset(Keys(parent))[k] > 1;
    KeyHasRow(parent, k);
    var i: nat :| i < |parent| && NonNull(parent[i]) && KeyOf(parent[i]) == k;
    PartnersCount(parent[i], parent);
    TwoPartnersJoin(parent, i);
  }

  /** Two rows that one row joins also join each other. */
  lemma TwoPartnersJoin(parent: seq<Cells>, i: nat)
    requires i < |parent| && |Partners(parent[i], parent)| >= 2
    ensures !NoTwoJoin(parent)
  {
    var partners := Partners(parent[i], parent);
    var j, k := partners[0], partners[1];
    PartnersAre(parent[i], parent, j);
    PartnersAre(parent[i], parent, k);
    assert j in partners && k in partners;
    if j < k {
      JoinsIffSameCells(parent[j], parent[k]);
    } else {
      JoinsIffSameCells(parent[k], parent[j]);
    }
  }

  lemma TwoElements(s: seq<nat>, i: nat, j: nat)
    requires i in s && j in s && i != j
    ensures |s| >= 2
  {
  }

  lemma {:induction false} KeyHasRow(rows: seq<Cells>, k: Key)
    requires k in Keys(rows)
    ensures exists i: nat :: i < |rows| && NonNull(rows[i]) && KeyOf(rows[i]) == k
  {
    if !(NonNull(rows[0]) && KeyOf(rows[0]) == k) {
      KeyHasRow(rows[1..], k);
      var i :| 0 <= i < |rows[1..]| && NonNull(rows[1..][i]) && KeyOf(rows[1..][i]) == k;
      assert rows[i + 1] == rows[1..][i];
    }
  }
}
