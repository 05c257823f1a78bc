/**
 * What the plotting loops select for each energy: the zip-and-filter comprehensions over
 * the projected columns, the legend exponent and suffix, the list of distinct energies and
 * the marker iterator.
 */
module Selection {
  import opened Results
  import opened PyStr
  import opened Seqs

  /** The angle guard `1 <= theta <= max_theta`, or no guard at all. */
  datatype AngleWindow = Unbounded | UpTo(maxTheta: int)

  predicate InWindow(w: AngleWindow, theta: real) {
    match w
    case Unbounded => true
    case UpTo(m) => 1.0 <= theta <= m as real
  }

  /** The guard of the per-energy comprehensions: `e == mev and 1 <= theta <= max_theta`. */
  predicate Keep(w: AngleWindow, mev: string, theta: real, e: string) {
    e == mev && InWindow(w, theta)
  }

  /** `[theta for theta, e in zip(thetas, energies) if <guard>]`. */
  function Select(thetas: seq<real>, energies: seq<string>, mev: string, w: AngleWindow): seq<real> {
    Comprehend(Zip(thetas, energies), (p: (real, string)) => Keep(w, mev, p.0, p.1), (p: (real, string)) => p.0)
  }

  /** `[y for theta, y, e in zip(thetas, ys, energies) if <guard>]`. */
  function SelectBy(thetas: seq<real>, ys: seq<real>, energies: seq<string>, mev: string, w: AngleWindow): seq<real> {
    Comprehend(Zip3(thetas, ys, energies), (t: (real, real, string)) => Keep(w, mev, t.0, t.2), (t: (real, real, string)) => t.1)
  }

  /** The positions the guard keeps in `zip(thetas, energies)`. */
  function Kept(thetas: seq<real>, energies: seq<string>, mev: string, w: AngleWindow): seq<nat> {
    Hits(Zip(thetas, energies), (p: (real, string)) => Keep(w, mev, p.0, p.1))
  }

  /**
   * The kept positions are exactly those within both columns whose energy is `mev` and whose
   * angle lies in the window, in increasing order.
   */
  lemma KeptExactly(thetas: seq<real>, energies: seq<string>, mev: string, w: AngleWindow)
    ensures forall i: nat :: i in Kept(thetas, energies, mev, w) <==>
              i < Min(|thetas|, |energies|) && Keep(w, mev, thetas[i], energies[i])
    ensures forall j, k :: 0 <= j < k < |Kept(thetas, energies, mev, w)| ==>
              Kept(thetas, energies, mev, w)[j] < Kept(thetas, energies, mev, w)[k]
  {
    var h := Kept(thetas, energies, mev, w);
    var ts := Zip(thetas, energies);
    forall i: nat | i in h
      ensures i < Min(|thetas|, |energies|) && Keep(w, mev, thetas[i], energies[i])
    {
      var j :| 0 <= j < |h| && h[j] == i;
    }
  }

  /** The selected angles are the angles at the kept positions, in order. */
  lemma SelectPicks(thetas: seq<real>, energies: seq<string>, mev: string, w: AngleWindow)
    ensures |Select(thetas, energies, mev, w)| == |Kept(thetas, energies, mev, w)|
    ensures forall j :: 0 <= j < |Kept(thetas, energies, mev, w)| ==>
              Select(thetas, energies, mev, w)[j] == thetas[Kept(thetas, energies, mev, w)[j]]
  {
    ComprehendPicks(Zip(thetas, energies), (p: (real, string)) => Keep(w, mev, p.0, p.1), (p: (real, string)) => p.0);
  }

  /**
   * The values selected beside the angles come from the same kept positions, as long as the
   * value column is no shorter than the zip of angles and energies.
   */
  lemma SelectByPicks(thetas: seq<real>, ys: seq<real>, energies: seq<string>, mev: string, w: AngleWindow)
    requires |ys| >= Min(|thetas|, |energies|)
    ensures |SelectBy(thetas, ys, energies, mev, w)| == |Kept(thetas, energies, mev, w)|
    ensures forall j :: 0 <= j < |Kept(thetas, energies, mev, w)| ==>
              SelectBy(thetas, ys, energies, mev, w)[j] == ys[Kept(thetas, energies, mev, w)[j]]
  {
    var keep3 := (t: (real, real, string)) => Keep(w, mev, t.0, t.2);
    var keep2 := (p: (real, string)) => Keep(w, mev, p.0, p.1);
    var t3 := Zip3(thetas, ys, energies);
    HitsAgree(t3, keep3, Zip(thetas, energies), keep2);
    ComprehendPicks(t3, keep3, (t: (real, real, string)) => t.1);
  }

  /**
   * The angle list and the value list selected for one energy have the same length, and their
   * `j`-th elements are the angle and the value of one position whose energy is `mev` and
   * whose angle lies in the window; positions keep their order.
   */
  lemma SelectPairs(thetas: seq<real>, ys: seq<real>, energies: seq<string>, mev: string, w: AngleWindow)
    requires |ys| == |thetas|
    ensures |Select(thetas, energies, mev, w)| == |SelectBy(thetas, ys, energies, mev, w)|
    ensures forall j :: 0 <= j < |Select(thetas, energies, mev, w)| ==>
              exists i :: 0 <= i < |thetas| && i < |energies| && Keep(w, mev, thetas[i], energies[i]) &&
                          Select(thetas, energies, mev, w)[j] == thetas[i] &&
                          SelectBy(thetas, ys, energies, mev, w)[j] == ys[i]
  {
    SelectPicks(thetas, energies, mev, w);
    SelectByPicks(thetas, ys, energies, mev, w);
    KeptExactly(thetas, energies, mev, w);
    var h := Kept(thetas, energies, mev, w);
    forall j | 0 <= j < |Select(thetas, energies, mev, w)|
      ensures exists i :: 0 <= i < |thetas| && i < |energies| && Keep(w, mev, thetas[i], energies[i]) &&
                          Select(thetas, energies, mev, w)[j] == thetas[i] &&
                          SelectBy(thetas, ys, energies, mev, w)[j] == ys[i]
    {
      assert h[j] in h;
    }
  }

  /** An angle is selected exactly when some position within both columns holds it and passes the guard. */
  lemma SelectMembers(thetas: seq<real>, energies: seq<string>, mev: string, w: AngleWindow, x: real)
    ensures x in Select(thetas, energies, mev, w) <==>
              exists i :: 0 <= i < |thetas| && i < |energies| && thetas[i] == x && Keep(w, mev, x, energies[i])
  {
    SelectPicks(thetas, energies, mev, w);
    KeptExactly(thetas, energies, mev, w);
    var s := Select(thetas, energies, mev, w);
    var h := Kept(thetas, energies, mev, w);
    if x in s {
      var j :| 0 <= j < |s| && s[j] == x;
      assert h[j] in h;
    }
    if exists i :: 0 <= i < |thetas| && i < |energies| && thetas[i] == x && Keep(w, mev, x, energies[i]) {
      var i :| 0 <= i < |thetas| && i < |energies| && thetas[i] == x && Keep(w, mev, x, energies[i]);
      var i': nat := i;
      assert i' in h;
      var j :| 0 <= j < |h| && h[j] == i';
      assert s[j] == x;
    }
  }

  /**
   * Without an angle window the angle column plays no part: `[y for theta, y, e in zip(...)]`
   * keeps what `[y for y, e in zip(ys, energies) if e == mev]` keeps, when the angle column is
   * no shorter than the value column.
   */
  lemma SelectByUnbounded(thetas: seq<real>, ys: seq<real>, energies: seq<string>, mev: string)
    requires |thetas| >= |ys|
    ensures SelectBy(thetas, ys, energies, mev, Unbounded) == Select(ys, energies, mev, Unbounded)
  {
    var keep3 := (t: (real, real, string)) => Keep(Unbounded, mev, t.0, t.2);
    var keep2 := (p: (real, string)) => Keep(Unbounded, mev, p.0, p.1);
    var t3 := Zip3(thetas, ys, energies);
    HitsAgree(t3, keep3, Zip(ys, energies), keep2);
    ComprehendPicks(t3, keep3, (t: (real, real, string)) => t.1);
    SelectPicks(ys, energies, mev, Unbounded);
  }

  /**
   * The comprehensions read only as many energies as there are angles: energies appended
   * beyond the angle column are never paired with anything.
   */
  lemma SelectIgnoresTail(thetas: seq<real>, ys: seq<real>, energies: seq<string>, more: seq<string>, mev: string, w: AngleWindow)
    requires |thetas| <= |energies|
    ensures Select(thetas, energies + more, mev, w) == Select(thetas, energies, mev, w)
    ensures SelectBy(thetas, ys, energies + more, mev, w) == SelectBy(thetas, ys, energies, mev, w)
  {
    ZipIgnoresTail(thetas, energies, more);
    Zip3IgnoresTail(thetas, ys, energies, more);
  }

  /** The comprehensions over a single angle keep it exactly when it passes the guard with the first energy. */
  lemma SelectSingle(x: real, energies: seq<string>, mev: string, w: AngleWindow)
    ensures Select([x], energies, mev, w) == if energies != [] && Keep(w, mev, x, energies[0]) then [x] else []
  {
    var keep := (p: (real, string)) => Keep(w, mev, p.0, p.1);
    var first := (p: (real, string)) => p.0;
    var z := Zip([x], energies);
    if energies != [] {
      assert z == [(x, energies[0])];
      assert z[..0] == [];
      assert Comprehend(z, keep, first) == Comprehend(z[..0], keep, first) + (if keep(z[0]) then [first(z[0])] else []);
    } else {
      assert z == [];
    }
  }

  /**
   * A column of `df.loc[(df[energy] == mev) & (1 <= df[theta]) & (df[theta] <= max_theta)]`:
   * the value `col` of every row the guard keeps, in row order.
   */
  function LocColumn<R>(rows: seq<R>, energy: R -> string, theta: R -> real, mev: string, w: AngleWindow, col: R -> real): seq<real> {
    Comprehend(rows, (r: R) => Keep(w, mev, theta(r), energy(r)), col)
  }

  /**
   * Filtering the rows of a table and then reading a column keeps what the zip comprehensions
   * keep over the table's columns: the `.loc` filter of one script and the comprehensions of
   * the others select the same angles and the same values.
   */
  lemma LocIsSelect<R>(rows: seq<R>, energy: R -> string, theta: R -> real, col: R -> real, mev: string, w: AngleWindow)
    ensures LocColumn(rows, energy, theta, mev, w, theta) == Select(MapSeq(theta, rows), MapSeq(energy, rows), mev, w)
    ensures LocColumn(rows, energy, theta, mev, w, col)
         == SelectBy(MapSeq(theta, rows), MapSeq(col, rows), MapSeq(energy, rows), mev, w)
  {
    var keep := (r: R) => Keep(w, mev, theta(r), energy(r));
    var ths, es, cs := MapSeq(theta, rows), MapSeq(energy, rows), MapSeq(col, rows);
    MapSeqAt(theta, rows);
    MapSeqAt(energy, rows);
    MapSeqAt(col, rows);
    ComprehendAgree(rows, keep, theta, Zip(ths, es),
                    (p: (real, string)) => Keep(w, mev, p.0, p.1), (p: (real, string)) => p.0);
    ComprehendAgree(rows, keep, col, Zip3(ths, cs, es),
                    (t: (real, real, string)) => Keep(w, mev, t.0, t.2), (t: (real, real, string)) => t.1);
  }

  /** `len(values) - idx - 1`: the power of ten the `idx`-th energy is scaled by. */
  function Exponent(n: nat, idx: nat): (p: nat)
    requires idx < n
    ensures p < n
    ensures p == 0 <==> idx == n - 1
  {
    n - idx - 1
  }

  /** The legend text appended for a power of ten: nothing, ` $\times 10$`, or ` $\times 10^{p}$`. */
  function ScaleSuffix(p: nat): (s: string)
    ensures s == [] <==> p == 0
  {
    if p == 0 then ""
    else if p == 1 then " $\\times 10$"
    else " $\\times 10^{" + Decimal(p) + "}$"
  }

  /** Distinct powers of ten give distinct suffixes. */
  lemma ScaleSuffixInjective(p: nat, q: nat)
    requires ScaleSuffix(p) == ScaleSuffix(q)
    ensures p == q
  {
    var head := " $\\times 10^{";
    if p >= 2 && q >= 2 {
      var s := ScaleSuffix(p);
      assert s == head + Decimal(p) + "}$";
      assert s == head + Decimal(q) + "}$";
      assert |Decimal(p)| == |Decimal(q)|;
      assert Decimal(p) == s[|head|..|s| - 2];
      assert Decimal(q) == s[|head|..|s| - 2];
      DecimalInjective(p, q);
    }
  }

  /** `f'{prefix}(E = {mev} MeV)'` followed by the suffix for the power of ten. */
  function Label(prefix: string, mev: string, p: nat): string {
    prefix + "(E = " + mev + " MeV)" + ScaleSuffix(p)
  }

  /**
   * Every label opens with its series prefix and ends with the suffix of its power of ten, so
   * the labels of the series of one energy (theory and experiment) share that suffix.
   */
  lemma LabelParts(prefix: string, mev: string, p: nat)
    ensures StartsWith(Label(prefix, mev, p), prefix)
    ensures EndsWith(Label(prefix, mev, p), ScaleSuffix(p))
  {
    assert StartsWith(prefix, prefix);
    PrefixOfAppend(prefix, "(E = ", prefix);
    PrefixOfAppend(prefix + "(E = ", mev, prefix);
    PrefixOfAppend(prefix + "(E = " + mev, " MeV)", prefix);
    PrefixOfAppend(prefix + "(E = " + mev + " MeV)", ScaleSuffix(p), prefix);
    SuffixOfAppend(prefix + "(E = " + mev + " MeV)", ScaleSuffix(p));
  }

  /** Without a power of ten the label is `f'{prefix}(E = {mev} MeV)'` alone. */
  lemma LabelUnscaled(prefix: string, mev: string)
    ensures Label(prefix, mev, 0) == prefix + "(E = " + mev + " MeV)"
  {
    assert ScaleSuffix(0) == [];
  }

  /**
   * A label determines its power of ten: the labels of one series for the same energy differ
   * whenever their exponents do.
   */
  lemma LabelDeterminesExponent(prefix: string, mev: string, p: nat, q: nat)
    requires Label(prefix, mev, p) == Label(prefix, mev, q)
    ensures p == q
  {
    var head := prefix + "(E = " + mev + " MeV)";
    assert Label(prefix, mev, p) == head + ScaleSuffix(p);
    assert Label(prefix, mev, q) == head + ScaleSuffix(q);
    assert ScaleSuffix(p) == Label(prefix, mev, p)[|head|..];
    assert ScaleSuffix(q) == Label(prefix, mev, q)[|head|..];
    ScaleSuffixInjective(p, q);
  }

  /** The distinct elements, each once, at its first occurrence. */
  function Dedup(xs: seq<string>): (ds: seq<string>)
    ensures NoDup(ds)
    ensures forall x :: x in ds <==> x in xs
    decreases |xs|
  {
    if xs == [] then []
    else
      var n := |xs| - 1;
      var ds := Dedup(xs[..n]);
      assert forall x :: x in xs <==> x in xs[..n] || x == xs[n];
      if xs[n] in ds then ds else ds + [xs[n]]
  }

  /** The index of the first occurrence of `x` in `xs`. */
  function FirstIndex(xs: seq<string>, x: string): (k: nat)
    requires x in xs
    ensures k < |xs| && xs[k] == x
    ensures forall j :: 0 <= j < k ==> xs[j] != x
  {
    if xs[0] == x then 0 else 1 + FirstIndex(xs[1..], x)
  }

  /** Extending a list keeps the first occurrence of what the prefix already holds. */
  lemma FirstIndexOfPrefix(xs: seq<string>, n: nat, x: string)
    requires n <= |xs| && x in xs[..n]
    ensures FirstIndex(xs, x) == FirstIndex(xs[..n], x)
  {
    var a, b := FirstIndex(xs, x), FirstIndex(xs[..n], x);
    assert xs[b] == x;
    assert a <= b;
    assert xs[..n][a] == x;
  }

  /** `Dedup` lists the distinct elements in the order of their first occurrences, as `.unique()` does. */
  lemma {:induction false} DedupInOrder(xs: seq<string>)
    ensures forall i, j :: 0 <= i < j < |Dedup(xs)| ==> FirstIndex(xs, Dedup(xs)[i]) < FirstIndex(xs, Dedup(xs)[j])
    decreases |xs|
  {
    if xs != [] {
      var n := |xs| - 1;
      var p := xs[..n];
      var prev := Dedup(p);
      var ds := Dedup(xs);
      DedupInOrder(p);
      forall y | y in prev ensures FirstIndex(xs, y) == FirstIndex(p, y) && FirstIndex(xs, y) < n {
        FirstIndexOfPrefix(xs, n, y);
      }
      if xs[n] !in prev {
        assert ds == prev + [xs[n]];
        assert FirstIndex(xs, xs[n]) == n;
        forall i, j | 0 <= i < j < |ds| ensures FirstIndex(xs, ds[i]) < FirstIndex(xs, ds[j]) {
          assert ds[i] == prev[i];
          if j < |prev| {
            assert ds[j] == prev[j];
          }
        }
      }
    }
  }

  predicate SortedBy(xs: seq<string>, key: string -> real) {
    forall i, j :: 0 <= i < j < |xs| ==> key(xs[i]) <= key(xs[j])
  }

  /** `x` put before the first element of `ys` whose key is not smaller. */
  function Insert(x: string, ys: seq<string>, key: string -> real): (zs: seq<string>)
    ensures multiset(zs) == multiset(ys) + multiset{x}
    ensures forall z :: z in zs ==> z == x || z in ys
    decreases |ys|
  {
    if ys == [] then [x]
    else if key(x) <= key(ys[0]) then [x] + ys
    else
      assert ys == [ys[0]] + ys[1..];
      [ys[0]] + Insert(x, ys[1..], key)
  }

  lemma {:induction false} InsertKeepsSorted(x: string, ys: seq<string>, key: string -> real)
    requires SortedBy(ys, key)
    ensures SortedBy(Insert(x, ys, key), key)
    decreases |ys|
  {
    var zs := Insert(x, ys, key);
    if ys != [] && key(x) > key(ys[0]) {
      var rest := Insert(x, ys[1..], key);
      assert SortedBy(ys[1..], key) by {
        forall i, j | 0 <= i < j < |ys[1..]| ensures key(ys[1..][i]) <= key(ys[1..][j]) {
          assert ys[1..][i] == ys[i + 1] && ys[1..][j] == ys[j + 1];
        }
      }
      InsertKeepsSorted(x, ys[1..], key);
      assert zs == [ys[0]] + rest;
      forall i, j | 0 <= i < j < |zs| ensures key(zs[i]) <= key(zs[j]) {
        assert zs[j] == rest[j - 1];
        if i == 0 {
          var z := rest[j - 1];
          assert z in rest;
          if z != x {
            var k :| 0 <= k < |ys[1..]| && ys[1..][k] == z;
            assert ys[k + 1] == z;
          }
        } else {
          assert zs[i] == rest[i - 1];
        }
      }
    } else if ys != [] {
      assert zs == [x] + ys;
      forall i, j | 0 <= i < j < |zs| ensures key(zs[i]) <= key(zs[j]) {
        assert zs[j] == ys[j - 1];
        if i > 0 {
          assert zs[i] == ys[i - 1];
        }
      }
    }
  }

  /** `sorted(xs, key=key)`, by insertion. */
  function SortBy(xs: seq<string>, key: string -> real): (zs: seq<string>)
    ensures multiset(zs) == multiset(xs)
    ensures SortedBy(zs, key)
    decreases |xs|
  {
    if xs == [] then []
    else
      assert xs == [xs[0]] + xs[1..];
      var rest := SortBy(xs[1..], key);
      InsertKeepsSorted(xs[0], rest, key);
      Insert(xs[0], rest, key)
  }

  /** The same elements, each as often, keeps a list free of duplicates and its membership. */
  lemma PermutationKeepsNoDup(xs: seq<string>, ys: seq<string>)
    requires multiset(xs) == multiset(ys) && NoDup(xs)
    ensures NoDup(ys) && forall x :: x in ys <==> x in xs
  {
    forall x | x in ys ensures x in xs {
      assert x in multiset(ys);
    }
    forall x | x in xs ensures x in ys {
      assert x in multiset(xs);
    }
    forall i, j | 0 <= i < j < |ys| ensures ys[i] != ys[j] {
      if ys[i] == ys[j] {
        var x := ys[i];
        CountAtLeastTwo(ys, i, j);
        CountAtMostOne(xs, x);
        assert false;
      }
    }
  }

  lemma {:induction false} CountAtLeastTwo(ys: seq<string>, i: nat, j: nat)
    requires i < j < |ys| && ys[i] == ys[j]
    ensures multiset(ys)[ys[i]] >= 2
  {
    var x := ys[i];
    assert ys == ys[..i] + [x] + ys[i + 1..j] + [x] + ys[j + 1..];
    assert multiset(ys) == multiset(ys[..i]) + multiset{x} + multiset(ys[i + 1..j]) + multiset{x} + multiset(ys[j + 1..]);
  }

  lemma {:induction false} CountAtMostOne(xs: seq<string>, x: string)
    requires NoDup(xs)
    ensures multiset(xs)[x] <= 1
    decreases |xs|
  {
    if xs != [] {
      var n := |xs| - 1;
      assert xs == xs[..n] + [xs[n]];
      assert NoDup(xs[..n]);
      CountAtMostOne(xs[..n], x);
      if xs[n] == x {
        assert x !in xs[..n];
        assert multiset(xs[..n])[x] == 0;
      }
    }
  }

  /** The key `float(x)` sorts by, for a text that converts. */
  function KeyOf(parse: string -> Option<real>, x: string): real {
    match parse(x)
    case Some(v) => v
    case None => 0.0
  }

  /**
   * `sorted(list(set(pool)), key=float)`: every energy of the pool exactly once, in
   * increasing numeric value; `None` is the ValueError raised when one of them does not
   * convert. Two spellings of one value ("45" and "45.0") are two entries.
   */
  function UniqueEnergies(pool: seq<string>, parse: string -> Option<real>): (u: Option<seq<string>>)
    ensures u.Some? <==> forall x :: x in pool ==> parse(x).Some?
    ensures u.Some? ==> NoDup(u.value) && forall x :: x in u.value <==> x in pool
    ensures u.Some? ==> forall i, j :: 0 <= i < j < |u.value| ==> parse(u.value[i]).value <= parse(u.value[j]).value
  {
    if exists x :: x in pool && parse(x).None? then None
    else
      var ds := Dedup(pool);
      var key := (x: string) => KeyOf(parse, x);
      var zs := SortBy(ds, key);
      PermutationKeepsNoDup(ds, zs);
      assert forall i :: 0 <= i < |zs| ==> parse(zs[i]).Some? && key(zs[i]) == parse(zs[i]).value;
      Some(zs)
  }

  /** `['o', 's', 'D', '^', 'v', '>', '<', 'p', 'H', 'x']`, the markers of the experimental series. */
  const CsvMarkers: seq<string> := ["o", "s", "D", "^", "v", ">", "<", "p", "H", "x"]
}
