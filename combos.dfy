/** The parameter-combination table of myscripts/scripts/make_param_combos.py:
    the Cartesian product of the free parameters (`index_by == -1`), in
    lexicographic order, with every pegged parameter taking the candidate at
    the position of its referenced parameter's value. */
module ParamCombos {
  import opened Results
  import opened Seqs

  /** Row `i` of a table made of blocks of `p` rows: the block it lies in and
      its offset inside that block (`divmod(i, p)`). */
  function Split(i: nat, p: nat): (r: (nat, nat))
    requires p > 0
    ensures r.1 < p
  {
    if i < p then (0, i)
    else
      var r := Split(i - p, p);
      (r.0 + 1, r.1)
  }

  /** The row at offset `b` of block `a`. */
  function Join(a: nat, b: nat, p: nat): nat
  {
    if a == 0 then b else Join(a - 1, b, p) + p
  }

  lemma {:induction false} SplitBelow(i: nat, n: nat, p: nat)
    requires p > 0 && i < n * p
    ensures Split(i, p).0 < n
  {
    if i >= p {
      assert i - p < (n - 1) * p;
      SplitBelow(i - p, n - 1, p);
    }
  }

  lemma {:induction false} SplitJoin(a: nat, b: nat, p: nat)
    requires b < p
    ensures Split(Join(a, b, p), p) == (a, b)
  {
    if a > 0 {
      SplitJoin(a - 1, b, p);
    }
  }

  lemma {:induction false} JoinBelow(a: nat, b: nat, n: nat, p: nat)
    requires a < n && b < p
    ensures Join(a, b, p) < n * p
  {
    if a > 0 {
      JoinBelow(a - 1, b, n - 1, p);
    }
  }

  /** Of two rows, the earlier lies in an earlier or the same block, and then
      at a smaller offset. */
  lemma {:induction false} SplitOrder(i: nat, j: nat, p: nat)
    requires i < j && p > 0
    ensures Split(i, p).0 <= Split(j, p).0
    ensures Split(i, p).0 == Split(j, p).0 ==> Split(i, p).1 < Split(j, p).1
  {
    if i >= p {
      SplitOrder(i - p, j - p, p);
    }
  }

  /** `np.prod` of the lengths of the candidate lists. */
  function CountCombos<T>(ls: seq<seq<T>>): nat
  {
    if ls == [] then 1 else |ls[0]| * CountCombos(ls[1..])
  }

  /** Every candidate in `xs`, in order, followed by every combination of `rest`. */
  function Prepend<T>(xs: seq<T>, rest: seq<seq<T>>): (r: seq<seq<T>>)
    ensures |r| == |xs| * |rest|
  {
    if xs == [] then []
    else seq(|rest|, k requires 0 <= k < |rest| => [xs[0]] + rest[k]) + Prepend(xs[1..], rest)
  }

  /** `itertools.product(*ls)`: the first list varies slowest, the last fastest. */
  function Product<T>(ls: seq<seq<T>>): (r: seq<seq<T>>)
    ensures |r| == CountCombos(ls)
  {
    if ls == [] then [[]] else Prepend(ls[0], Product(ls[1..]))
  }

  /** Row `i` of `Prepend` is the candidate of its block followed by the
      combination at its offset. */
  lemma {:induction false} PrependAt<T>(xs: seq<T>, rest: seq<seq<T>>, i: nat)
    requires i < |xs| * |rest|
    ensures |rest| > 0 && Split(i, |rest|).0 < |xs|
    ensures Prepend(xs, rest)[i] == [xs[Split(i, |rest|).0]] + rest[Split(i, |rest|).1]
  {
    SplitBelow(i, |xs|, |rest|);
    if i >= |rest| {
      assert i - |rest| < (|xs| - 1) * |rest|;
      PrependAt(xs[1..], rest, i - |rest|);
    }
  }

  /** Combination `i` is a candidate of the first list followed by a
      combination of the others. */
  lemma ProductIndex<T>(ls: seq<seq<T>>, i: nat)
    requires ls != [] && i < CountCombos(ls)
    ensures CountCombos(ls[1..]) > 0 && Split(i, CountCombos(ls[1..])).0 < |ls[0]|
    ensures Product(ls)[i] == [ls[0][Split(i, CountCombos(ls[1..])).0]] + Product(ls[1..])[Split(i, CountCombos(ls[1..])).1]
  {
    PrependAt(ls[0], Product(ls[1..]), i);
  }

  /** With no lists the product has exactly one, empty, combination. */
  lemma ProductOfNothing<T>(ls: seq<seq<T>>)
    requires ls == []
    ensures Product(ls) == [[]] && CountCombos(ls) == 1
  {
  }

  /** Every combination picks one candidate from every list. */
  lemma {:induction false} ProductMemberSound<T>(ls: seq<seq<T>>, c: seq<T>)
    requires c in Product(ls)
    ensures |c| == |ls| && forall k :: 0 <= k < |ls| ==> c[k] in ls[k]
  {
    if ls != [] {
      var i :| 0 <= i < |Product(ls)| && Product(ls)[i] == c;
      var p := CountCombos(ls[1..]);
      ProductIndex(ls, i);
      var (a, b) := Split(i, p);
      var tail := Product(ls[1..])[b];
      ProductMemberSound(ls[1..], tail);
      assert c == [ls[0][a]] + tail;
      assert forall k :: 1 <= k < |ls| ==> c[k] == tail[k - 1] && ls[k] == ls[1..][k - 1];
    }
  }

  /** Every pick of one candidate per list is a combination. */
  lemma {:induction false} ProductMemberComplete<T>(ls: seq<seq<T>>, c: seq<T>)
    requires |c| == |ls| && forall k :: 0 <= k < |ls| ==> c[k] in ls[k]
    ensures c in Product(ls)
  {
    if ls == [] {
      assert c == [];
    } else {
      var p := CountCombos(ls[1..]);
      assert forall k :: 0 <= k < |ls| - 1 ==> c[1..][k] == c[k + 1] && ls[1..][k] == ls[k + 1];
      ProductMemberComplete(ls[1..], c[1..]);
      var b :| 0 <= b < p && Product(ls[1..])[b] == c[1..];
      var a :| 0 <= a < |ls[0]| && ls[0][a] == c[0];
      JoinBelow(a, b, |ls[0]|, p);
      SplitJoin(a, b, p);
      var i := Join(a, b, p);
      ProductIndex(ls, i);
      assert Product(ls)[i] == [c[0]] + c[1..];
      assert [c[0]] + c[1..] == c;
    }
  }

  /** A combination picks one candidate from every list, and every such pick
      is a combination: nothing is omitted and nothing else appears. */
  lemma ProductMembers<T>(ls: seq<seq<T>>, c: seq<T>)
    ensures c in Product(ls) <==> |c| == |ls| && forall k :: 0 <= k < |ls| ==> c[k] in ls[k]
  {
    if c in Product(ls) {
      ProductMemberSound(ls, c);
    }
    if |c| == |ls| && forall k :: 0 <= k < |ls| ==> c[k] in ls[k] {
      ProductMemberComplete(ls, c);
    }
  }

  /** Lists without repeats give combinations without repeats. */
  lemma {:induction false} ProductDistinct<T>(ls: seq<seq<T>>)
    requires forall k :: 0 <= k < |ls| ==> Distinct(ls[k])
    ensures Distinct(Product(ls))
  {
    if ls != [] {
      var p := CountCombos(ls[1..]);
      ProductDistinct(ls[1..]);
      forall i, j | 0 <= i < j < |Product(ls)|
        ensures Product(ls)[i] != Product(ls)[j]
      {
        ProductIndex(ls, i);
        ProductIndex(ls, j);
        SplitOrder(i, j, p);
        if Split(i, p).0 == Split(j, p).0 {
          assert Product(ls)[i][1..] == Product(ls[1..])[Split(i, p).1];
          assert Product(ls)[j][1..] == Product(ls[1..])[Split(j, p).1];
        } else {
          assert Product(ls)[i][0] != Product(ls)[j][0];
        }
      }
    }
  }

  /** The positions, one per list, that combination `i` picks. */
  function Positions<T>(ls: seq<seq<T>>, i: nat): (r: seq<nat>)
    requires i < CountCombos(ls)
    ensures |r| == |ls|
    ensures forall k :: 0 <= k < |ls| ==> r[k] < |ls[k]|
  {
    if ls == [] then []
    else
      var p := CountCombos(ls[1..]);
      assert p > 0;
      SplitBelow(i, |ls[0]|, p);
      var tail := Positions(ls[1..], Split(i, p).1);
      assert forall k :: 1 <= k < |ls| ==> ls[1..][k - 1] == ls[k];
      [Split(i, p).0] + tail
  }

  /** Combination `i` holds, for every list, the candidate at its position. */
  lemma {:induction false} ProductAt<T>(ls: seq<seq<T>>, i: nat)
    requires i < CountCombos(ls)
    ensures |Product(ls)[i]| == |ls|
    ensures forall k :: 0 <= k < |ls| ==> Product(ls)[i][k] == ls[k][Positions(ls, i)[k]]
  {
    if ls != [] {
      var p := CountCombos(ls[1..]);
      ProductIndex(ls, i);
      ProductAt(ls[1..], Split(i, p).1);
      assert forall k :: 1 <= k < |ls| ==> ls[1..][k - 1] == ls[k];
    }
  }

  /** `a` comes before `b` in lexicographic order. */
  ghost predicate LexLess(a: seq<nat>, b: seq<nat>)
  {
    exists k :: 0 <= k < |a| && k < |b| && a[..k] == b[..k] && a[k] < b[k]
  }

  lemma LexLessCons(x: nat, a: seq<nat>, b: seq<nat>)
    requires LexLess(a, b)
    ensures LexLess([x] + a, [x] + b)
  {
    var k :| 0 <= k < |a| && k < |b| && a[..k] == b[..k] && a[k] < b[k];
    assert ([x] + a)[..k + 1] == [x] + a[..k];
    assert ([x] + b)[..k + 1] == [x] + b[..k];
  }

  lemma LexLessHead(x: nat, y: nat, a: seq<nat>, b: seq<nat>)
    requires x < y
    ensures LexLess([x] + a, [y] + b)
  {
    assert ([x] + a)[..0] == ([y] + b)[..0];
  }

  /** Combinations are listed in strictly increasing lexicographic order of
      their positions: the last list varies fastest. */
  lemma {:induction false} ProductLexicographic<T>(ls: seq<seq<T>>, i: nat, j: nat)
    requires i < j < CountCombos(ls)
    ensures LexLess(Positions(ls, i), Positions(ls, j))
  {
    var p := CountCombos(ls[1..]);
    assert p > 0;
    SplitOrder(i, j, p);
    var (ai, bi) := Split(i, p);
    var (aj, bj) := Split(j, p);
    assert Positions(ls, i) == [ai] + Positions(ls[1..], bi);
    assert Positions(ls, j) == [aj] + Positions(ls[1..], bj);
    if ai == aj {
      ProductLexicographic(ls[1..], bi, bj);
      LexLessCons(ai, Positions(ls[1..], bi), Positions(ls[1..], bj));
    } else {
      LexLessHead(ai, aj, Positions(ls[1..], bi), Positions(ls[1..], bj));
    }
  }

  /** The failures of `main`. */
  datatype ComboError =
    | NamesValuesMismatch(names: nat, values: nat)  // first assert
    | IndexByMismatch(indexBy: nat, names: nat)     // second assert
    | SelfPeg                                       // a parameter pegged to itself
    | BadPeg                                        // a peg that names no free parameter
    | ValueNotFound(row: nat, param: nat)           // `np.where(...)[0][0]` on an empty match
    | NoCandidate(row: nat, param: nat)             // pegged list shorter than the found position
    | TupleIndex(row: nat, param: nat)              // index past the free-only tuple

  /** The positions of the free parameters (`index_by == -1`), in order. */
  function FreeIndices(idx: seq<int>): (r: seq<nat>)
    ensures |r| <= |idx|
    ensures forall k :: 0 <= k < |r| ==> r[k] < |idx| && idx[r[k]] == -1
  {
    if idx == [] then []
    else
      var n := |idx| - 1;
      FreeIndices(idx[..n]) + (if idx[n] == -1 then [n] else [])
  }

  /** How many free parameters come before parameter `j`: its place in a
      combination when it is free. */
  function FreePos(idx: seq<int>, j: nat): nat
    requires j <= |idx|
  {
    |FreeIndices(idx[..j])|
  }

  lemma {:induction false} FreeIndicesPrefix(idx: seq<int>, m: nat)
    requires m <= |idx|
    ensures FreeIndices(idx[..m]) <= FreeIndices(idx)
    decreases |idx| - m
  {
    if m < |idx| {
      var n := |idx| - 1;
      assert idx[..n][..m] == idx[..m];
      FreeIndicesPrefix(idx[..n], m);
    } else {
      assert idx[..m] == idx;
    }
  }

  /** A free parameter sits at its free position. */
  lemma FreePosAt(idx: seq<int>, j: nat)
    requires j < |idx| && idx[j] == -1
    ensures FreePos(idx, j) < |FreeIndices(idx)| && FreeIndices(idx)[FreePos(idx, j)] == j
  {
    assert idx[..j + 1][..j] == idx[..j];
    FreeIndicesPrefix(idx, j + 1);
  }

  /** `param_values[index_by == -1]`: the candidate lists of the free parameters. */
  function FreeLists<T>(values: seq<seq<T>>, idx: seq<int>): (r: seq<seq<T>>)
    requires |values| == |idx|
    ensures |r| == |FreeIndices(idx)|
  {
    var free := FreeIndices(idx);
    seq(|free|, k requires 0 <= k < |free| => values[free[k]])
  }

  /** Every pegged parameter references a free parameter. */
  predicate ValidPegs(idx: seq<int>)
  {
    forall j :: 0 <= j < |idx| && idx[j] != -1 ==> 0 <= idx[j] < |idx| && idx[idx[j]] == -1
  }

  /** The first position of `x` in `s` (`np.where(s == x)[0][0]`). */
  function IndexOf<T(==)>(s: seq<T>, x: T): (r: Option<nat>)
    ensures r.Some? ==> r.value < |s| && s[r.value] == x && forall k :: 0 <= k < r.value ==> s[k] != x
    ensures r.None? ==> x !in s
  {
    if s == [] then None
    else if s[0] == x then Some(0)
    else match IndexOf(s[1..], x)
      case None => None
      case Some(k) => Some(k + 1)
  }

  /** The value of parameter `j` in row `row`, whose free values are `combo`. */
  function Cell(values: seq<seq<real>>, idx: seq<int>, combo: seq<real>, row: nat, j: nat): Result<real, ComboError>
    requires |values| == |idx| && ValidPegs(idx) && j < |idx|
    requires |combo| == |FreeIndices(idx)|
  {
    if idx[j] == -1 then
      FreePosAt(idx, j);
      Ok(combo[FreePos(idx, j)])
    else
      match PegPosition(values, idx, combo, j)
      case None => Err(ValueNotFound(row, j))
      case Some(k) => if k < |values[j]| then Ok(values[j][k]) else Err(NoCandidate(row, j))
  }

  /** Where the referenced parameter's value of combination `c` first occurs
      in the referenced list: the candidate position of pegged parameter `j`. */
  function PegPosition(values: seq<seq<real>>, idx: seq<int>, c: seq<real>, j: nat): Option<nat>
    requires |values| == |idx| && ValidPegs(idx) && j < |idx| && idx[j] != -1
    requires |c| == |FreeIndices(idx)|
  {
    FreePosAt(idx, idx[j]);
    IndexOf(values[idx[j]], c[FreePos(idx, idx[j])])
  }

  /** The first `m` cells of a row, or the first failing cell. */
  function RowCells(values: seq<seq<real>>, idx: seq<int>, combo: seq<real>, row: nat, m: nat): (r: Result<seq<real>, ComboError>)
    requires |values| == |idx| && ValidPegs(idx) && m <= |idx|
    requires |combo| == |FreeIndices(idx)|
    ensures r.Ok? ==> |r.value| == m
  {
    if m == 0 then Ok([])
    else match RowCells(values, idx, combo, row, m - 1)
      case Err(e) => Err(e)
      case Ok(cells) => match Cell(values, idx, combo, row, m - 1)
        case Err(e) => Err(e)
        case Ok(v) => Ok(cells + [v])
  }

  /** The first `m` rows of the table, or the first failing cell, row by row. */
  function TableRows(values: seq<seq<real>>, idx: seq<int>, combos: seq<seq<real>>, m: nat): (r: Result<seq<seq<real>>, ComboError>)
    requires |values| == |idx| && ValidPegs(idx) && m <= |combos|
    requires forall c :: c in combos ==> |c| == |FreeIndices(idx)|
    ensures r.Ok? ==> |r.value| == m && forall i :: 0 <= i < m ==> |r.value[i]| == |idx|
  {
    if m == 0 then Ok([])
    else match TableRows(values, idx, combos, m - 1)
      case Err(e) => Err(e)
      case Ok(rows) => match RowCells(values, idx, combos[m - 1], m - 1, |idx|)
        case Err(e) => Err(e)
        case Ok(cells) =>
          assert forall i :: 0 <= i < m - 1 ==> (rows + [cells])[i] == rows[i];
          Ok(rows + [cells])
  }

  /** Column `j` of the table holds cell `j` of every row. */
  function Columns(rows: seq<seq<real>>, w: nat): (cols: seq<seq<real>>)
    requires forall i :: 0 <= i < |rows| ==> |rows[i]| == w
    ensures |cols| == w && forall j :: 0 <= j < w ==> |cols[j]| == |rows|
  {
    seq(w, j requires 0 <= j < w => seq(|rows|, i requires 0 <= i < |rows| => rows[i][j]))
  }

  /** The `index_by` that is used: `None` pegs nothing. */
  function IndexBy(indexBy: Option<seq<int>>, n: nat): seq<int>
  {
    match indexBy
    case None => seq(n, _ => -1)
    case Some(idx) => idx
  }

  /** The checks of lines 63-65, in order, and the check that every peg
      names a free parameter: the first that fails, if any. */
  function ArgumentsError(names: seq<string>, values: seq<seq<real>>, idx: seq<int>): (r: Option<ComboError>)
    ensures r.None? <==> ArgumentsValid(names, values, idx)
    ensures r.Some? && |names| == |values| && |idx| == |names| && (forall j :: 0 <= j < |idx| ==> idx[j] != j) ==> r.value == BadPeg
  {
    if |names| != |values| then Some(NamesValuesMismatch(|names|, |values|))
    else if |idx| != |names| then Some(IndexByMismatch(|idx|, |names|))
    else if exists j :: 0 <= j < |idx| && idx[j] == j then Some(SelfPeg)
    else if !ValidPegs(idx) then Some(BadPeg)
    else None
  }

  /** The table `main` builds, keyed by parameter name, or the failure. */
  function Combinations(names: seq<string>, values: seq<seq<real>>, indexBy: Option<seq<int>>): Result<map<string, seq<real>>, ComboError>
  {
    var idx := IndexBy(indexBy, |names|);
    match ArgumentsError(names, values, idx)
    case Some(e) => Err(e)
    case None =>
      var combos := Product(FreeLists(values, idx));
      ProductLengths(FreeLists(values, idx));
      match TableRows(values, idx, combos, |combos|)
      case Err(e) => Err(e)
      case Ok(rows) => Ok(ToMap(names, Columns(rows, |names|)))
  }

  /** Every combination has one value per list. */
  lemma ProductLengths<T>(ls: seq<seq<T>>)
    ensures forall c :: c in Product(ls) ==> |c| == |ls|
  {
    forall c | c in Product(ls)
      ensures |c| == |ls|
    {
      ProductMemberSound(ls, c);
    }
  }

  /** The cells of a row are the cells `Cell` computes, and the row fails
      exactly when one of them does. */
  lemma {:induction false} RowCellsSpec(values: seq<seq<real>>, idx: seq<int>, combo: seq<real>, row: nat, m: nat)
    requires |values| == |idx| && ValidPegs(idx) && m <= |idx|
    requires |combo| == |FreeIndices(idx)|
    ensures RowCells(values, idx, combo, row, m).Ok? <==> forall j :: 0 <= j < m ==> Cell(values, idx, combo, row, j).Ok?
    ensures RowCells(values, idx, combo, row, m).Ok? ==>
      forall j :: 0 <= j < m ==> RowCells(values, idx, combo, row, m).value[j] == Cell(values, idx, combo, row, j).value
  {
    if m > 0 {
      RowCellsSpec(values, idx, combo, row, m - 1);
    }
  }

  /** The rows of the table are the rows `RowCells` computes, and the table
      fails exactly when one of its rows does. */
  lemma {:induction false} TableRowsSpec(values: seq<seq<real>>, idx: seq<int>, combos: seq<seq<real>>, m: nat)
    requires |values| == |idx| && ValidPegs(idx) && m <= |combos|
    requires forall c :: c in combos ==> |c| == |FreeIndices(idx)|
    ensures TableRows(values, idx, combos, m).Ok? <==>
      forall i :: 0 <= i < m ==> RowCells(values, idx, combos[i], i, |idx|).Ok?
    ensures TableRows(values, idx, combos, m).Ok? ==>
      forall i :: 0 <= i < m ==> TableRows(values, idx, combos, m).value[i] == RowCells(values, idx, combos[i], i, |idx|).value
  {
    TableRowsOk(values, idx, combos, m);
    if TableRows(values, idx, combos, m).Ok? {
      TableRowsValues(values, idx, combos, m);
    }
  }

  lemma {:induction false} TableRowsOk(values: seq<seq<real>>, idx: seq<int>, combos: seq<seq<real>>, m: nat)
    requires |values| == |idx| && ValidPegs(idx) && m <= |combos|
    requires forall c :: c in combos ==> |c| == |FreeIndices(idx)|
    ensures TableRows(values, idx, combos, m).Ok? <==>
      forall i :: 0 <= i < m ==> RowCells(values, idx, combos[i], i, |idx|).Ok?
  {
    if m > 0 {
      TableRowsOk(values, idx, combos, m - 1);
    }
  }

  lemma {:induction false} TableRowsValues(values: seq<seq<real>>, idx: seq<int>, combos: seq<seq<real>>, m: nat)
    requires |values| == |idx| && ValidPegs(idx) && m <= |combos|
    requires forall c :: c in combos ==> |c| == |FreeIndices(idx)|
    requires TableRows(values, idx, combos, m).Ok?
    ensures forall i :: 0 <= i < m ==>
      RowCells(values, idx, combos[i], i, |idx|).Ok? &&
      TableRows(values, idx, combos, m).value[i] == RowCells(values, idx, combos[i], i, |idx|).value
  {
    if m > 0 {
      TableRowsValues(values, idx, combos, m - 1);
      var prev := TableRows(values, idx, combos, m - 1).value;
      assert TableRows(values, idx, combos, m).value == prev + [RowCells(values, idx, combos[m - 1], m - 1, |idx|).value];
    }
  }

  /** The table holds, at row `i` and column `j`, the cell `Cell` computes
      for combination `i`, and fails exactly when one of those cells fails. */
  lemma TableCells(values: seq<seq<real>>, idx: seq<int>, combos: seq<seq<real>>)
    requires |values| == |idx| && ValidPegs(idx)
    requires forall c :: c in combos ==> |c| == |FreeIndices(idx)|
    ensures TableRows(values, idx, combos, |combos|).Ok? <==>
      forall i, j :: 0 <= i < |combos| && 0 <= j < |idx| ==> Cell(values, idx, combos[i], i, j).Ok?
    ensures TableRows(values, idx, combos, |combos|).Ok? ==>
      forall i, j :: 0 <= i < |combos| && 0 <= j < |idx| ==>
        TableRows(values, idx, combos, |combos|).value[i][j] == Cell(values, idx, combos[i], i, j).value
  {
    TableRowsSpec(values, idx, combos, |combos|);
    forall i | 0 <= i < |combos| {
      RowCellsSpec(values, idx, combos[i], i, |idx|);
    }
  }

  /** The referenced value of a pegged parameter always occurs in the
      referenced list, since the combination took it from there. */
  lemma PeggedLookupFound(values: seq<seq<real>>, idx: seq<int>, c: seq<real>, j: nat)
    requires |values| == |idx| && ValidPegs(idx) && j < |idx| && idx[j] != -1
    requires c in Product(FreeLists(values, idx))
    ensures |c| == |FreeIndices(idx)| && PegPosition(values, idx, c, j).Some?
  {
    var ref := idx[j];
    ProductMemberSound(FreeLists(values, idx), c);
    FreePosAt(idx, ref);
    assert FreeLists(values, idx)[FreePos(idx, ref)] == values[ref];
  }

  /** The pegged cells of combination `c` all find a candidate. */
  ghost predicate PegsFit(values: seq<seq<real>>, idx: seq<int>, c: seq<real>)
  {
    && |values| == |idx| && ValidPegs(idx) && |c| == |FreeIndices(idx)|
    && forall j :: 0 <= j < |idx| && idx[j] != -1 ==>
      PegPosition(values, idx, c, j).Some? && PegPosition(values, idx, c, j).value < |values[j]|
  }

  /** The checks that come before any row is built. */
  ghost predicate ArgumentsValid(names: seq<string>, values: seq<seq<real>>, idx: seq<int>)
  {
    && |names| == |values| && |idx| == |names|
    && (forall j :: 0 <= j < |idx| ==> idx[j] != j)
    && ValidPegs(idx)
  }

  /** A row succeeds exactly when its pegged cells find their candidates. */
  lemma RowFits(values: seq<seq<real>>, idx: seq<int>, c: seq<real>, row: nat)
    requires |values| == |idx| && ValidPegs(idx) && |c| == |FreeIndices(idx)|
    ensures RowCells(values, idx, c, row, |idx|).Ok? <==> PegsFit(values, idx, c)
  {
    RowCellsSpec(values, idx, c, row, |idx|);
    forall j | 0 <= j < |idx|
      ensures Cell(values, idx, c, row, j).Ok? <==>
        (idx[j] != -1 ==> PegPosition(values, idx, c, j).Some? && PegPosition(values, idx, c, j).value < |values[j]|)
    {
    }
  }

  /** The table succeeds exactly when every combination's pegged cells find
      their candidates. */
  lemma TableFits(values: seq<seq<real>>, idx: seq<int>, combos: seq<seq<real>>)
    requires |values| == |idx| && ValidPegs(idx)
    requires forall c :: c in combos ==> |c| == |FreeIndices(idx)|
    ensures TableRows(values, idx, combos, |combos|).Ok? <==> forall c :: c in combos ==> PegsFit(values, idx, c)
  {
    TableRowsSpec(values, idx, combos, |combos|);
    if TableRows(values, idx, combos, |combos|).Ok? {
      forall c | c in combos
        ensures PegsFit(values, idx, c)
      {
        var i :| 0 <= i < |combos| && combos[i] == c;
        RowFits(values, idx, c, i);
      }
    } else {
      var i :| 0 <= i < |combos| && !RowCells(values, idx, combos[i], i, |idx|).Ok?;
      RowFits(values, idx, combos[i], i);
      assert combos[i] in combos;
    }
  }

  /** `main` succeeds exactly when the arguments pass the checks and every
      pegged parameter of every combination finds its candidate. */
  lemma CombinationsSucceed(names: seq<string>, values: seq<seq<real>>, indexBy: Option<seq<int>>)
    ensures var idx := IndexBy(indexBy, |names|);
      Combinations(names, values, indexBy).Ok? <==>
        && ArgumentsValid(names, values, idx)
        && forall c :: c in Product(FreeLists(values, idx)) ==> PegsFit(values, idx, c)
  {
    var idx := IndexBy(indexBy, |names|);
    if ArgumentsValid(names, values, idx) {
      var combos := Product(FreeLists(values, idx));
      ProductLengths(FreeLists(values, idx));
      TableFits(values, idx, combos);
    }
  }

  /** A referenced value is never missing: the combination took it from the
      referenced list, so `np.where` always finds it. */
  lemma NeverValueNotFound(names: seq<string>, values: seq<seq<real>>, indexBy: Option<seq<int>>)
    ensures !Combinations(names, values, indexBy).Err? || !Combinations(names, values, indexBy).error.ValueNotFound?
  {
    var idx := IndexBy(indexBy, |names|);
    if ArgumentsValid(names, values, idx) {
      TableNeverValueNotFound(values, idx);
    }
  }

  lemma TableNeverValueNotFound(values: seq<seq<real>>, idx: seq<int>)
    requires |values| == |idx| && ValidPegs(idx)
    ensures var combos := Product(FreeLists(values, idx));
      && (forall c :: c in combos ==> |c| == |FreeIndices(idx)|)
      && var r := TableRows(values, idx, combos, |combos|);
        !r.Err? || !r.error.ValueNotFound?
  {
    var combos := Product(FreeLists(values, idx));
    ProductLengths(FreeLists(values, idx));
    var r := TableRows(values, idx, combos, |combos|);
    if r.Err? {
      TableRowsFirstError(values, idx, combos, |combos|);
      var i, j :| 0 <= i < |combos| && 0 <= j < |idx| && Cell(values, idx, combos[i], i, j) == Err(r.error);
      if idx[j] != -1 {
        PeggedLookupFound(values, idx, combos[i], j);
      }
    }
  }

  /** A failing table fails at a cell that `Cell` rejects. */
  lemma {:induction false} TableRowsFirstError(values: seq<seq<real>>, idx: seq<int>, combos: seq<seq<real>>, m: nat)
    requires |values| == |idx| && ValidPegs(idx) && m <= |combos|
    requires forall c :: c in combos ==> |c| == |FreeIndices(idx)|
    requires TableRows(values, idx, combos, m).Err?
    ensures exists i, j :: 0 <= i < m && 0 <= j < |idx| && Cell(values, idx, combos[i], i, j) == Err(TableRows(values, idx, combos, m).error)
  {
    if TableRows(values, idx, combos, m - 1).Err? {
      TableRowsFirstError(values, idx, combos, m - 1);
    } else {
      RowCellsFirstError(values, idx, combos[m - 1], m - 1, |idx|);
    }
  }

  lemma {:induction false} RowCellsFirstError(values: seq<seq<real>>, idx: seq<int>, combo: seq<real>, row: nat, m: nat)
    requires |values| == |idx| && ValidPegs(idx) && m <= |idx|
    requires |combo| == |FreeIndices(idx)|
    requires RowCells(values, idx, combo, row, m).Err?
    ensures exists j :: 0 <= j < m && Cell(values, idx, combo, row, j) == Err(RowCells(values, idx, combo, row, m).error)
  {
    if RowCells(values, idx, combo, row, m - 1).Err? {
      RowCellsFirstError(values, idx, combo, row, m - 1);
    }
  }

  /** The table `main` writes has one column per parameter name, each one
      row per combination of the free parameters. */
  lemma CombinationsShape(names: seq<string>, values: seq<seq<real>>, indexBy: Option<seq<int>>)
    requires Combinations(names, values, indexBy).Ok?
    ensures ArgumentsValid(names, values, IndexBy(indexBy, |names|))
    ensures var data := Combinations(names, values, indexBy).value;
      && data.Keys == set n | n in names
      && forall n :: n in data ==> |data[n]| == CountCombos(FreeLists(values, IndexBy(indexBy, |names|)))
  {
    var idx := IndexBy(indexBy, |names|);
    ProductLengths(FreeLists(values, idx));
  }

  /** With distinct names, cell `j` of row `i` is what `Cell` computes for
      combination `i`. */
  lemma TableCell(names: seq<string>, values: seq<seq<real>>, indexBy: Option<seq<int>>, i: nat, j: nat)
    requires ArgumentsValid(names, values, IndexBy(indexBy, |names|))
    requires Combinations(names, values, indexBy).Ok? && Distinct(names)
    requires i < |Product(FreeLists(values, IndexBy(indexBy, |names|)))| && j < |names|
    ensures var idx := IndexBy(indexBy, |names|);
      var c := Product(FreeLists(values, idx))[i];
      var data := Combinations(names, values, indexBy).value;
      && |c| == |FreeIndices(idx)|
      && names[j] in data && i < |data[names[j]]|
      && Cell(values, idx, c, i, j).Ok?
      && data[names[j]][i] == Cell(values, idx, c, i, j).value
  {
    var idx := IndexBy(indexBy, |names|);
    var ls := FreeLists(values, idx);
    var combos := Product(ls);
    ProductLengths(ls);
    TableCells(values, idx, combos);
    var rows := TableRows(values, idx, combos, |combos|).value;
    var cols := Columns(rows, |names|);
    ToMapDistinct(names, cols, j);
    assert cols[j][i] == rows[i][j];
  }

  /** A free parameter's value in row `i` is its entry in combination `i`. */
  lemma FreeColumn(names: seq<string>, values: seq<seq<real>>, indexBy: Option<seq<int>>, i: nat, j: nat)
    requires ArgumentsValid(names, values, IndexBy(indexBy, |names|))
    requires Combinations(names, values, indexBy).Ok? && Distinct(names)
    requires i < |Product(FreeLists(values, IndexBy(indexBy, |names|)))| && j < |names|
    requires IndexBy(indexBy, |names|)[j] == -1
    ensures var idx := IndexBy(indexBy, |names|);
      var c := Product(FreeLists(values, idx))[i];
      var data := Combinations(names, values, indexBy).value;
      && names[j] in data && i < |data[names[j]]|
      && FreePos(idx, j) < |FreeIndices(idx)| == |c|
      && FreeIndices(idx)[FreePos(idx, j)] == j
      && data[names[j]][i] == c[FreePos(idx, j)]
  {
    TableCell(names, values, indexBy, i, j);
    FreePosAt(IndexBy(indexBy, |names|), j);
  }

  /** A pegged parameter's value in row `i` is its candidate at the first
      position where the referenced list holds the referenced parameter's
      value of row `i`. */
  lemma PeggedColumn(names: seq<string>, values: seq<seq<real>>, indexBy: Option<seq<int>>, i: nat, j: nat)
    requires ArgumentsValid(names, values, IndexBy(indexBy, |names|))
    requires Combinations(names, values, indexBy).Ok? && Distinct(names)
    requires i < |Product(FreeLists(values, IndexBy(indexBy, |names|)))| && j < |names|
    requires IndexBy(indexBy, |names|)[j] != -1
    ensures var ref := IndexBy(indexBy, |names|)[j];
      var data := Combinations(names, values, indexBy).value;
      && 0 <= ref < |names| && names[j] in data && names[ref] in data
      && i < |data[names[j]]| && i < |data[names[ref]]|
      && exists k :: && 0 <= k < |values[j]| && 0 <= k < |values[ref]|
                    && values[ref][k] == data[names[ref]][i]
                    && (forall k' :: 0 <= k' < k ==> values[ref][k'] != data[names[ref]][i])
                    && data[names[j]][i] == values[j][k]
  {
    var idx := IndexBy(indexBy, |names|);
    var ref := idx[j];
    var combos := Product(FreeLists(values, idx));
    var data := Combinations(names, values, indexBy).value;
    TableCell(names, values, indexBy, i, j);
    FreeColumn(names, values, indexBy, i, ref);
    var k := PegPosition(values, idx, combos[i], j).value;
    assert values[ref][k] == data[names[ref]][i];
  }

  lemma {:induction false} RowCellsErrorPersists(values: seq<seq<real>>, idx: seq<int>, combo: seq<real>, row: nat, j: nat, m: nat)
    requires |values| == |idx| && ValidPegs(idx) && j <= m <= |idx|
    requires |combo| == |FreeIndices(idx)|
    requires RowCells(values, idx, combo, row, j).Err?
    ensures RowCells(values, idx, combo, row, m) == RowCells(values, idx, combo, row, j)
    decreases m
  {
    if m > j {
      RowCellsErrorPersists(values, idx, combo, row, j, m - 1);
    }
  }

  lemma {:induction false} TableRowsErrorPersists(values: seq<seq<real>>, idx: seq<int>, combos: seq<seq<real>>, i: nat, m: nat)
    requires |values| == |idx| && ValidPegs(idx) && i <= m <= |combos|
    requires forall c :: c in combos ==> |c| == |FreeIndices(idx)|
    requires TableRows(values, idx, combos, i).Err?
    ensures TableRows(values, idx, combos, m) == TableRows(values, idx, combos, i)
    decreases m
  {
    if m > i {
      TableRowsErrorPersists(values, idx, combos, i, m - 1);
    }
  }

  /** The inner loop of `main`: fills row `i` of the grid parameter by
      parameter; a missing candidate stops it at that cell. */
  method FillRow(grid: array2<real>, values: seq<seq<real>>, idx: seq<int>, combo: seq<real>, i: nat)
    returns (r: Outcome<ComboError>)
    requires |values| == |idx| && ValidPegs(idx) && |combo| == |FreeIndices(idx)|
    requires i < grid.Length0 && grid.Length1 == |idx|
    modifies grid
    ensures r.Pass? <==> RowCells(values, idx, combo, i, |idx|).Ok?
    ensures r.Fail? ==> r.error == RowCells(values, idx, combo, i, |idx|).error
    ensures r.Pass? ==> forall b :: 0 <= b < |idx| ==> grid[i, b] == RowCells(values, idx, combo, i, |idx|).value[b]
    ensures forall a, b :: 0 <= a < grid.Length0 && a != i && 0 <= b < grid.Length1 ==> grid[a, b] == old(grid[a, b])
  {
    var j := 0;
    while j < |idx|
      invariant 0 <= j <= |idx|
      invariant RowCells(values, idx, combo, i, j).Ok?
      invariant forall b :: 0 <= b < j ==> grid[i, b] == RowCells(values, idx, combo, i, j).value[b]
      invariant forall a, b :: 0 <= a < grid.Length0 && a != i && 0 <= b < grid.Length1 ==> grid[a, b] == old(grid[a, b])
    {
      var v: real;
      if idx[j] == -1 {
        FreePosAt(idx, j);
        v := combo[FreePos(idx, j)];
      } else {
        var k := PegPosition(values, idx, combo, j);
        if k.None? || k.value >= |values[j]| {
          RowCellsErrorPersists(values, idx, combo, i, j + 1, |idx|);
          return Fail(if k.None? then ValueNotFound(i, j) else NoCandidate(i, j));
        }
        v := values[j][k.value];
      }
      grid[i, j] := v;
      j := j + 1;
    }
    r := Pass;
  }

  /** The outer loop of `main`: fills the grid row by row, one row per
      combination; a missing candidate stops it at that cell. */
  method FillGrid(grid: array2<real>, values: seq<seq<real>>, idx: seq<int>, combos: seq<seq<real>>)
    returns (r: Outcome<ComboError>)
    requires |values| == |idx| && ValidPegs(idx)
    requires forall c :: c in combos ==> |c| == |FreeIndices(idx)|
    requires grid.Length0 == |combos| && grid.Length1 == |idx|
    modifies grid
    ensures r.Pass? <==> TableRows(values, idx, combos, |combos|).Ok?
    ensures r.Fail? ==> r.error == TableRows(values, idx, combos, |combos|).error
    ensures r.Pass? ==> forall a, b :: 0 <= a < |combos| && 0 <= b < |idx| ==>
      grid[a, b] == TableRows(values, idx, combos, |combos|).value[a][b]
  {
    var i := 0;
    while i < |combos|
      invariant 0 <= i <= |combos|
      invariant TableRows(values, idx, combos, i).Ok?
      invariant forall a, b :: 0 <= a < i && 0 <= b < |idx| ==> grid[a, b] == TableRows(values, idx, combos, i).value[a][b]
    {
      var row := FillRow(grid, values, idx, combos[i], i);
      if row.Fail? {
        TableRowsErrorPersists(values, idx, combos, i + 1, |combos|);
        return Fail(row.error);
      }
      i := i + 1;
    }
    r := Pass;
  }

  /** The columns of a grid, column `b` holding entry `b` of every row. */
  method GridColumns(grid: array2<real>) returns (cols: seq<seq<real>>)
    ensures |cols| == grid.Length1
    ensures forall b :: 0 <= b < grid.Length1 ==> |cols[b]| == grid.Length0
    ensures forall a, b :: 0 <= a < grid.Length0 && 0 <= b < grid.Length1 ==> cols[b][a] == grid[a, b]
  {
    cols := seq(grid.Length1, b requires 0 <= b < grid.Length1 reads grid =>
      seq(grid.Length0, a requires 0 <= a < grid.Length0 reads grid => grid[a, b]));
  }

  lemma ColumnsOfGrid(rows: seq<seq<real>>, cols: seq<seq<real>>, w: nat)
    requires forall a :: 0 <= a < |rows| ==> |rows[a]| == w
    requires |cols| == w && forall b :: 0 <= b < w ==> |cols[b]| == |rows|
    requires forall a, b :: 0 <= a < |rows| && 0 <= b < w ==> cols[b][a] == rows[a][b]
    ensures cols == Columns(rows, w)
  {
    forall b | 0 <= b < w
      ensures cols[b] == Columns(rows, w)[b]
    {
      assert forall a :: 0 <= a < |rows| ==> cols[b][a] == Columns(rows, w)[b][a];
    }
  }

  /** `main`'s table: the argument checks, then the grid filled by the
      loops, keyed by parameter name. */
  method GenerateTable(names: seq<string>, values: seq<seq<real>>, indexBy: Option<seq<int>>)
    returns (r: Result<map<string, seq<real>>, ComboError>)
    ensures r == Combinations(names, values, indexBy)
  {
    var idx := IndexBy(indexBy, |names|);
    var bad := ArgumentsError(names, values, idx);
    if bad.Some? {
      return Err(bad.value);
    }
    var combos := Product(FreeLists(values, idx));
    ProductLengths(FreeLists(values, idx));
    var n, w := |combos|, |names|;
    var grid := new real[n, w];
    var filled := FillGrid(grid, values, idx, combos);
    if filled.Fail? {
      return Err(filled.error);
    }
    var rows := TableRows(values, idx, combos, n).value;
    var cols := GridColumns(grid);
    ColumnsOfGrid(rows, cols, w);
    r := Ok(ToMap(names, cols));
  }

  /** Whether the free parameters are exactly the first ones. */
  predicate FreeFirst(idx: seq<int>)
  {
    forall j :: 0 <= j < |idx| ==> (idx[j] == -1 <==> j < |FreeIndices(idx)|)
  }

  /** Cell `j` as lines 81-86 of make_param_combos.py compute it: the
      combination is indexed by the parameter's position among all
      parameters, although it holds the free parameters only. */
  function CellAsWritten(values: seq<seq<real>>, idx: seq<int>, combo: seq<real>, row: nat, j: nat): Result<real, ComboError>
    requires |values| == |idx| && ValidPegs(idx) && j < |idx|
  {
    if idx[j] == -1 then
      if j < |combo| then Ok(combo[j]) else Err(TupleIndex(row, j))
    else
      var ref := idx[j];
      if ref >= |combo| then Err(TupleIndex(row, j))
      else match IndexOf(values[ref], combo[ref])
        case None => Err(ValueNotFound(row, j))
        case Some(k) => if k < |values[j]| then Ok(values[j][k]) else Err(NoCandidate(row, j))
  }

  /** With a pegged parameter before a free one, the code as written runs
      past the end of the combination where the intended cell is a value. */
  lemma AsWrittenMisindexes()
    ensures var values := [[1.0, 2.0], [5.0, 6.0], [7.0, 8.0]];
      var idx := [-1, 0, -1];
      && ValidPegs(idx)
      && [1.0, 7.0] in Product(FreeLists(values, idx))
      && CellAsWritten(values, idx, [1.0, 7.0], 0, 2) == Err(TupleIndex(0, 2))
      && Cell(values, idx, [1.0, 7.0], 0, 2) == Ok(7.0)
  {
    var values := [[1.0, 2.0], [5.0, 6.0], [7.0, 8.0]];
    var idx := [-1, 0, -1];
    assert FreeIndices(idx[..1]) == [0];
    assert FreeIndices(idx[..2]) == [0];
    assert FreeIndices(idx) == [0, 2] by {
      assert idx[..2] == [-1, 0];
    }
    var ls := FreeLists(values, idx);
    assert ls == [[1.0, 2.0], [7.0, 8.0]];
    ProductMemberComplete(ls, [1.0, 7.0]);
  }

  /** The free positions are listed in increasing order. */
  lemma {:induction false} FreeIndicesIncreasing(idx: seq<int>)
    ensures forall a, b :: 0 <= a < b < |FreeIndices(idx)| ==> FreeIndices(idx)[a] < FreeIndices(idx)[b]
  {
    if idx != [] {
      var n := |idx| - 1;
      var p := FreeIndices(idx[..n]);
      FreeIndicesIncreasing(idx[..n]);
      assert forall k :: 0 <= k < |p| ==> p[k] < n;
      assert FreeIndices(idx) == p + (if idx[n] == -1 then [n] else []);
    }
  }

  /** Strictly increasing naturals below their count are 0, 1, 2, ... */
  lemma {:induction false} IncreasingBelowCount(r: seq<nat>)
    requires forall a, b :: 0 <= a < b < |r| ==> r[a] < r[b]
    requires forall k :: 0 <= k < |r| ==> r[k] < |r|
    ensures forall k :: 0 <= k < |r| ==> r[k] == k
  {
    if r != [] {
      var n := |r| - 1;
      var p := r[..n];
      forall k | 0 <= k < |p|
        ensures p[k] < |p|
      {
        assert r[k] < r[n];
      }
      IncreasingBelowCount(p);
      if n > 0 {
        assert r[n - 1] < r[n];
      }
    }
  }

  /** Unless the free parameters come first, some free parameter sits past
      the number of free parameters. */
  lemma NotFreeFirst(idx: seq<int>)
    requires !FreeFirst(idx)
    ensures exists j :: 0 <= j < |idx| && idx[j] == -1 && j >= |FreeIndices(idx)|
  {
    var r := FreeIndices(idx);
    FreeIndicesIncreasing(idx);
    if forall j :: 0 <= j < |idx| && idx[j] == -1 ==> j < |r| {
      forall k | 0 <= k < |r|
        ensures r[k] < |r|
      {
      }
      IncreasingBelowCount(r);
      forall j | 0 <= j < |idx|
        ensures idx[j] == -1 <==> j < |r|
      {
        if j < |r| {
          assert r[j] == j;
        }
      }
      assert false;
    }
  }

  /** As written, a table whose free parameters do not all come first fails
      in every row: the last free parameters read past the combination. */
  lemma AsWrittenFailsUnlessFreeFirst(values: seq<seq<real>>, idx: seq<int>, combo: seq<real>, row: nat)
    requires |values| == |idx| && ValidPegs(idx) && |combo| == |FreeIndices(idx)|
    requires !FreeFirst(idx)
    ensures exists j :: 0 <= j < |idx| && CellAsWritten(values, idx, combo, row, j) == Err(TupleIndex(row, j))
  {
    NotFreeFirst(idx);
    var j :| 0 <= j < |idx| && idx[j] == -1 && j >= |FreeIndices(idx)|;
    assert CellAsWritten(values, idx, combo, row, j) == Err(TupleIndex(row, j));
  }

  /** When the free parameters come first, a free parameter's free position
      is its own position. */
  lemma FreePosFirst(idx: seq<int>, j: nat)
    requires FreeFirst(idx) && j < |idx| && idx[j] == -1
    ensures FreePos(idx, j) == j
  {
    var r := FreeIndices(idx);
    FreeIndicesIncreasing(idx);
    FreePosAt(idx, j);
    forall k | 0 <= k < |r|
      ensures r[k] < |r|
    {
    }
    IncreasingBelowCount(r);
  }

  /** When the free parameters come first, the code as written computes the
      intended cell. */
  lemma AsWrittenAgreesWhenFreeFirst(values: seq<seq<real>>, idx: seq<int>, combo: seq<real>, row: nat, j: nat)
    requires |values| == |idx| && ValidPegs(idx) && |combo| == |FreeIndices(idx)| && j < |idx|
    requires FreeFirst(idx)
    ensures CellAsWritten(values, idx, combo, row, j) == Cell(values, idx, combo, row, j)
  {
    if idx[j] == -1 {
      FreePosFirst(idx, j);
    } else {
      FreePosFirst(idx, idx[j]);
    }
  }

  lemma {:induction false} SplitByTwo(i: nat)
    requires i < 6
    ensures Split(i, 2) == (i / 2, i % 2)
  {
    if i >= 2 {
      SplitByTwo(i - 2);
    }
  }

  /** The combinations of the documented example's second list alone. */
  lemma DocumentedTail()
    ensures Product([[1.0, 2.0]]) == [[1.0], [2.0]]
  {
    var ls := [[1.0, 2.0]];
    var empty: seq<seq<real>> := [];
    assert ls[1..] == empty;
    assert Product(empty) == [[]];
    var p := Product(ls);
    assert p == Prepend(ls[0], [[]]);
    assert |p| == 2;
    forall t | 0 <= t < 2
      ensures p[t] == [[1.0], [2.0]][t]
    {
      PrependAt(ls[0], [[]], t);
      if t == 1 {
        assert Split(0, 1) == (0, 0);
      }
    }
  }

  /** One combination of the documented example. */
  lemma DocumentedProductRow(i: nat)
    requires i < 6
    ensures CountCombos([[10.0, 20.0, 30.0], [1.0, 2.0]]) == 6
    ensures Product([[10.0, 20.0, 30.0], [1.0, 2.0]])[i]
      == [[10.0, 1.0], [10.0, 2.0], [20.0, 1.0], [20.0, 2.0], [30.0, 1.0], [30.0, 2.0]][i]
  {
    var ls := [[10.0, 20.0, 30.0], [1.0, 2.0]];
    assert ls[1..] == [[1.0, 2.0]];
    DocumentedTail();
    PrependAt(ls[0], [[1.0], [2.0]], i);
    SplitByTwo(i);
  }

  /** The combinations of the documented example, worked out row by row. */
  lemma DocumentedProduct()
    ensures Product([[10.0, 20.0, 30.0], [1.0, 2.0]])
      == [[10.0, 1.0], [10.0, 2.0], [20.0, 1.0], [20.0, 2.0], [30.0, 1.0], [30.0, 2.0]]
  {
    forall i | 0 <= i < 6
      ensures Product([[10.0, 20.0, 30.0], [1.0, 2.0]])[i]
        == [[10.0, 1.0], [10.0, 2.0], [20.0, 1.0], [20.0, 2.0], [30.0, 1.0], [30.0, 2.0]][i]
    {
      DocumentedProductRow(i);
    }
    DocumentedProductRow(0);
  }

  lemma DocumentedFree()
    ensures FreeIndices([-1, -1, 0]) == [0, 1]
    ensures FreeLists([[10.0, 20.0, 30.0], [1.0, 2.0], [5.5, 5.4, 5.3]], [-1, -1, 0]) == [[10.0, 20.0, 30.0], [1.0, 2.0]]
  {
    var idx := [-1, -1, 0];
    assert idx[..2][..1] == idx[..1];
    assert FreeIndices(idx[..1]) == [0];
    assert FreeIndices(idx[..2]) == [0, 1];
  }

  /** One cell of the documented example. */
  lemma DocumentedCell(i: nat, j: nat)
    requires i < 6 && j < 3
    ensures var values := [[10.0, 20.0, 30.0], [1.0, 2.0], [5.5, 5.4, 5.3]];
      var idx := [-1, -1, 0];
      var combos := [[10.0, 1.0], [10.0, 2.0], [20.0, 1.0], [20.0, 2.0], [30.0, 1.0], [30.0, 2.0]];
      var rows := [[10.0, 1.0, 5.5], [10.0, 2.0, 5.5], [20.0, 1.0, 5.4], [20.0, 2.0, 5.4], [30.0, 1.0, 5.3], [30.0, 2.0, 5.3]];
      && ValidPegs(idx) && |FreeIndices(idx)| == 2
      && Cell(values, idx, combos[i], i, j) == Ok(rows[i][j])
  {
    var values := [[10.0, 20.0, 30.0], [1.0, 2.0], [5.5, 5.4, 5.3]];
    var idx := [-1, -1, 0];
    DocumentedFree();
    if j < 2 {
      assert idx[..0] == [] && idx[..1] == [-1];
      assert FreePos(idx, j) == j;
    } else {
      assert idx[..0] == [];
      assert FreePos(idx, 0) == 0;
      var c := [10.0, 20.0, 30.0];
      assert c[1..][1..] == [30.0];
      assert IndexOf(c, 10.0) == Some(0);
      assert IndexOf(c, 20.0) == Some(1);
      assert IndexOf(c, 30.0) == Some(2);
    }
  }

  /** A table whose every cell succeeds is the table of those cells. */
  lemma TableFromCells(values: seq<seq<real>>, idx: seq<int>, combos: seq<seq<real>>, rows: seq<seq<real>>)
    requires |values| == |idx| && ValidPegs(idx)
    requires forall c :: c in combos ==> |c| == |FreeIndices(idx)|
    requires |rows| == |combos| && forall i :: 0 <= i < |rows| ==> |rows[i]| == |idx|
    requires forall i, j :: 0 <= i < |combos| && 0 <= j < |idx| ==> Cell(values, idx, combos[i], i, j) == Ok(rows[i][j])
    ensures TableRows(values, idx, combos, |combos|) == Ok(rows)
  {
    forall i | 0 <= i < |combos|
      ensures RowCells(values, idx, combos[i], i, |idx|) == Ok(rows[i])
    {
      RowFromCells(values, idx, combos[i], i, rows[i]);
    }
    TableRowsSpec(values, idx, combos, |combos|);
    var t := TableRows(values, idx, combos, |combos|);
    assert t.Ok? && |t.value| == |rows|;
    forall i | 0 <= i < |rows|
      ensures t.value[i] == rows[i]
    {
      assert RowCells(values, idx, combos[i], i, |idx|) == Ok(rows[i]);
    }
    assert t.value == rows;
  }

  /** A row whose every cell succeeds is the row of those cells. */
  lemma RowFromCells(values: seq<seq<real>>, idx: seq<int>, combo: seq<real>, row: nat, cells: seq<real>)
    requires |values| == |idx| && ValidPegs(idx) && |combo| == |FreeIndices(idx)| && |cells| == |idx|
    requires forall j :: 0 <= j < |idx| ==> Cell(values, idx, combo, row, j) == Ok(cells[j])
    ensures RowCells(values, idx, combo, row, |idx|) == Ok(cells)
  {
    RowCellsSpec(values, idx, combo, row, |idx|);
    assert forall j :: 0 <= j < |idx| ==> Cell(values, idx, combo, row, j).Ok?;
    var r := RowCells(values, idx, combo, row, |idx|);
    assert r.Ok? && |r.value| == |cells|;
    forall j | 0 <= j < |idx|
      ensures r.value[j] == cells[j]
    {
      assert Cell(values, idx, combo, row, j) == Ok(cells[j]);
    }
    assert r.value == cells;
  }

  /** `main` succeeds with the columns of the rows the table computes. */
  lemma CombinationsFromRows(names: seq<string>, values: seq<seq<real>>, indexBy: Option<seq<int>>, rows: seq<seq<real>>)
    requires ArgumentsValid(names, values, IndexBy(indexBy, |names|))
    requires forall i :: 0 <= i < |rows| ==> |rows[i]| == |names|
    requires var idx := IndexBy(indexBy, |names|);
      var combos := Product(FreeLists(values, idx));
      && (forall c :: c in combos ==> |c| == |FreeIndices(idx)|)
      && TableRows(values, idx, combos, |combos|) == Ok(rows)
    ensures Combinations(names, values, indexBy) == Ok(ToMap(names, Columns(rows, |names|)))
  {
  }

  /** The rows of the documented example. */
  lemma DocumentedRows(rows: seq<seq<real>>)
    requires rows == [[10.0, 1.0, 5.5], [10.0, 2.0, 5.5], [20.0, 1.0, 5.4], [20.0, 2.0, 5.4], [30.0, 1.0, 5.3], [30.0, 2.0, 5.3]]
    ensures TableRows([[10.0, 20.0, 30.0], [1.0, 2.0], [5.5, 5.4, 5.3]], [-1, -1, 0],
      [[10.0, 1.0], [10.0, 2.0], [20.0, 1.0], [20.0, 2.0], [30.0, 1.0], [30.0, 2.0]], 6) == Ok(rows)
  {
    var values := [[10.0, 20.0, 30.0], [1.0, 2.0], [5.5, 5.4, 5.3]];
    var idx := [-1, -1, 0];
    var combos := [[10.0, 1.0], [10.0, 2.0], [20.0, 1.0], [20.0, 2.0], [30.0, 1.0], [30.0, 2.0]];
    DocumentedFree();
    forall i, j | 0 <= i < 6 && 0 <= j < 3
      ensures Cell(values, idx, combos[i], i, j) == Ok(rows[i][j])
    {
      DocumentedCell(i, j);
    }
    TableFromCells(values, idx, combos, rows);
  }

  /** The table of the documented example, as the columns of its rows. */
  lemma DocumentedTable(names: seq<string>, values: seq<seq<real>>, indexBy: Option<seq<int>>, rows: seq<seq<real>>)
    requires names == ["Temp", "Interval", "Lattice_const"]
    requires values == [[10.0, 20.0, 30.0], [1.0, 2.0], [5.5, 5.4, 5.3]]
    requires indexBy == Some([-1, -1, 0])
    requires rows == [[10.0, 1.0, 5.5], [10.0, 2.0, 5.5], [20.0, 1.0, 5.4], [20.0, 2.0, 5.4], [30.0, 1.0, 5.3], [30.0, 2.0, 5.3]]
    ensures Combinations(names, values, indexBy) == Ok(ToMap(names, Columns(rows, 3)))
  {
    var idx := IndexBy(indexBy, |names|);
    assert idx == [-1, -1, 0];
    assert ArgumentsValid(names, values, idx);
    DocumentedFree();
    var ls := FreeLists(values, idx);
    ProductLengths(ls);
    DocumentedProduct();
    DocumentedRows(rows);
    CombinationsFromRows(names, values, indexBy, rows);
  }

  /** The columns of the documented example. */
  lemma DocumentedColumns(rows: seq<seq<real>>, cols: seq<seq<real>>)
    requires rows == [[10.0, 1.0, 5.5], [10.0, 2.0, 5.5], [20.0, 1.0, 5.4], [20.0, 2.0, 5.4], [30.0, 1.0, 5.3], [30.0, 2.0, 5.3]]
    requires cols == [[10.0, 10.0, 20.0, 20.0, 30.0, 30.0], [1.0, 2.0, 1.0, 2.0, 1.0, 2.0], [5.5, 5.5, 5.4, 5.4, 5.3, 5.3]]
    ensures Columns(rows, 3) == cols
  {
    var c := Columns(rows, 3);
    forall j | 0 <= j < 3
      ensures c[j] == cols[j]
    {
      assert |c[j]| == 6;
      forall i | 0 <= i < 6
        ensures c[j][i] == cols[j][i]
      {
        assert c[j][i] == rows[i][j];
      }
    }
  }

  /** The example of `main`'s documentation: the lattice constant is pegged
      to the temperature while temperature and interval range freely. */
  lemma DocumentedExample(names: seq<string>, values: seq<seq<real>>, indexBy: Option<seq<int>>)
    requires names == ["Temp", "Interval", "Lattice_const"]
    requires values == [[10.0, 20.0, 30.0], [1.0, 2.0], [5.5, 5.4, 5.3]]
    requires indexBy == Some([-1, -1, 0])
    ensures Combinations(names, values, indexBy)
      == Ok(map["Temp" := [10.0, 10.0, 20.0, 20.0, 30.0, 30.0],
                "Interval" := [1.0, 2.0, 1.0, 2.0, 1.0, 2.0],
                "Lattice_const" := [5.5, 5.5, 5.4, 5.4, 5.3, 5.3]])
  {
    var rows := [[10.0, 1.0, 5.5], [10.0, 2.0, 5.5], [20.0, 1.0, 5.4], [20.0, 2.0, 5.4], [30.0, 1.0, 5.3], [30.0, 2.0, 5.3]];
    DocumentedTable(names, values, indexBy, rows);
    var cols := [[10.0, 10.0, 20.0, 20.0, 30.0, 30.0], [1.0, 2.0, 1.0, 2.0, 1.0, 2.0], [5.5, 5.5, 5.4, 5.4, 5.3, 5.3]];
    DocumentedColumns(rows, cols);
    assert ToMap(names, cols) == ToMap(names[..2], cols)["Lattice_const" := cols[2]];
    assert ToMap(names[..2], cols) == ToMap(names[..1], cols)["Interval" := cols[1]];
    assert ToMap(names[..1], cols) == ToMap([], cols)["Temp" := cols[0]];
  }
}
