/**
 Snapshot retention (pkg/l0/snapshot.go:48-50, 330-347): files are removed from the front of their
 names' lexicographic order, so keeping the newest rests on decimal numbers sorting like numbers.
 */
module Retention {
  import opened Sequences

  const MAX_TO_KEEP := 3

  function Digit(d: nat): char
    requires d < 10
  {
    ('0' as int + d) as char
  }

  /** A number as %d prints it. */
  function Decimal(n: nat): (r: string)
    ensures |r| > 0
  {
    if n < 10 then [Digit(n)] else Decimal(n / 10) + [Digit(n % 10)]
  }

  function Name(timestamp: nat): string {
    "snapshot_" + (Decimal(timestamp) + ".snap")
  }

  predicate LexLess(s: string, t: string) {
    t != [] && (s == [] || s[0] < t[0] || (s[0] == t[0] && LexLess(s[1..], t[1..])))
  }

  // ---------------------------------------------------------------- order of names

  /** Strings compare by equally long heads first, then by what follows. */
  lemma {:induction false} LexConcat(a: string, b: string, s: string, t: string)
    requires |a| == |b|
    ensures LexLess(a + s, b + t) <==> LexLess(a, b) || (a == b && LexLess(s, t))
    decreases a
  {
    if a == [] {
      NothingFirst(s);
      NothingFirst(t);
    } else {
      LexConcat(a[1..], b[1..], s, t);
      assert (a + s)[1..] == a[1..] + s && (b + t)[1..] == b[1..] + t;
      assert a == [a[0]] + a[1..] && b == [b[0]] + b[1..];
    }
  }

  lemma {:induction false} LexIrreflexive(s: string)
    ensures !LexLess(s, s)
  {
    if s != [] {
      LexIrreflexive(s[1..]);
    }
  }

  /** Decimals of equal length compare as their numbers, and are equal only for equal numbers. */
  lemma {:induction false} DecimalOrder(a: nat, b: nat)
    requires |Decimal(a)| == |Decimal(b)|
    ensures LexLess(Decimal(a), Decimal(b)) <==> a < b
    ensures Decimal(a) == Decimal(b) ==> a == b
  {
    if a < 10 || b < 10 {
      assert a < 10 && b < 10;
    } else {
      DecimalOrder(a / 10, b / 10);
      LexConcat(Decimal(a / 10), Decimal(b / 10), [Digit(a % 10)], [Digit(b % 10)]);
      SplitLast(Decimal(a / 10), Digit(a % 10), Decimal(b / 10), Digit(b % 10));
    }
  }

  lemma SplitLast(s: string, x: char, t: string, y: char)
    ensures s + [x] == t + [y] ==> s == t && x == y
  {
    if s + [x] == t + [y] {
      assert (s + [x])[..|s|] == s && (t + [y])[..|t|] == t;
      assert (s + [x])[|s|] == x && (t + [y])[|t|] == y;
    }
  }

  lemma NamesByTail(a: nat, b: nat)
    ensures LexLess(Name(a), Name(b)) <==> LexLess(Decimal(a) + ".snap", Decimal(b) + ".snap")
  {
    LexConcat("snapshot_", "snapshot_", Decimal(a) + ".snap", Decimal(b) + ".snap");
    LexIrreflexive("snapshot_");
  }

  /** For timestamps of equal decimal length, lexicographic filename order is chronological. */
  lemma NamesOrdered(a: nat, b: nat)
    requires |Decimal(a)| == |Decimal(b)|
    ensures LexLess(Name(a), Name(b)) <==> a < b
  {
    NamesByTail(a, b);
    LexConcat(Decimal(a), Decimal(b), ".snap", ".snap");
    LexIrreflexive(".snap");
    DecimalOrder(a, b);
  }

  /** When one number is longer, its head decides, and the shorter one comes first if they agree. */
  lemma LongerNamesOrderedIff(a: nat, b: nat)
    requires |Decimal(a)| < |Decimal(b)|
    ensures LexLess(Name(a), Name(b)) <==> !LexLess(Decimal(b)[..|Decimal(a)|], Decimal(a))
    ensures LexLess(Name(b), Name(a)) <==> LexLess(Decimal(b)[..|Decimal(a)|], Decimal(a))
  {
    var da, db, n := Decimal(a), Decimal(b), |Decimal(a)|;
    NamesByTail(a, b);
    NamesByTail(b, a);
    assert db + ".snap" == db[..n] + (db[n..] + ".snap");
    LexConcat(da, db[..n], ".snap", db[n..] + ".snap");
    LexConcat(db[..n], da, db[n..] + ".snap", ".snap");
    AllDigits(b);
    assert (db[n..] + ".snap")[0] == db[n];
    LexTotal(da, db[..n]);
  }

  lemma {:induction false} AllDigits(n: nat)
    ensures forall i :: 0 <= i < |Decimal(n)| ==> '0' <= Decimal(n)[i] <= '9'
  {
    if n >= 10 {
      AllDigits(n / 10);
    }
  }

  lemma {:induction false} LexTotal(s: string, t: string)
    requires |s| == |t|
    ensures s == t || LexLess(s, t) || LexLess(t, s)
    ensures !(LexLess(s, t) && LexLess(t, s)) && (s == t ==> !LexLess(s, t))
  {
    if s != [] {
      LexTotal(s[1..], t[1..]);
      assert s == [s[0]] + s[1..] && t == [t[0]] + t[1..];
    }
  }

  // ---------------------------------------------------------------- cleaning

  predicate Sorted(files: seq<string>) {
    forall i, j :: 0 <= i < j < |files| ==> LexLess(files[i], files[j])
  }

  function First(files: seq<string>, m: int): set<string>
    requires m <= |files|
  {
    set i | 0 <= i < m :: files[i]
  }

  /** The directory without all but the last three of the listed names. */
  function Cleaned(directory: set<string>, files: seq<string>): set<string> {
    directory - First(files, |files| - MAX_TO_KEEP)
  }

  /** The directory listing comes sorted. */
  method CleanOldSnapshots(directory: set<string>, files: seq<string>) returns (left: set<string>)
    requires forall i :: 0 <= i < |files| ==> files[i] in directory
    ensures left == Cleaned(directory, files)
  {
    left := directory;
    if |files| <= MAX_TO_KEEP {
      return;
    }
    for i := 0 to |files| - MAX_TO_KEEP
      invariant left == directory - First(files, i)
    {
      left := left - {files[i]};
    }
  }

  function Names(ts: seq<nat>): (r: seq<string>)
    ensures |r| == |ts| && forall i :: 0 <= i < |ts| ==> r[i] == Name(ts[i])
  {
    seq(|ts|, i requires 0 <= i < |ts| => Name(ts[i]))
  }

  predicate EquallyLong(ts: seq<nat>) {
    forall i, j :: 0 <= i < |ts| && 0 <= j < |ts| ==> |Decimal(ts[i])| == |Decimal(ts[j])|
  }

  /** The snapshots newer than the given time. */
  function Newer(ts: seq<nat>, t: nat): set<nat> {
    set j: nat | j < |ts| && ts[j] > t
  }

  /** For timestamps of equal decimal length, the sorted names are in order of time. */
  lemma SortedByTime(ts: seq<nat>)
    requires Sorted(Names(ts)) && EquallyLong(ts)
    ensures forall i, j :: 0 <= i < j < |ts| ==> ts[i] < ts[j] && Name(ts[i]) != Name(ts[j])
  {
    forall i, j | 0 <= i < j < |ts| ensures ts[i] < ts[j] && Name(ts[i]) != Name(ts[j]) {
      assert LexLess(Names(ts)[i], Names(ts)[j]);
      NamesOrdered(ts[i], ts[j]);
      LexIrreflexive(Name(ts[i]));
    }
  }

  ghost function Between(lo: nat, hi: nat): (r: set<nat>)
    requires lo <= hi
    ensures |r| == hi - lo && forall j :: j in r <==> lo <= j < hi
    decreases hi
  {
    if lo == hi then {} else Between(lo, hi - 1) + {hi - 1}
  }

  /**
   Cleaning a directory of any snapshots with timestamps of equal decimal length leaves exactly those
   with fewer than three newer ones, and every other file.
   */
  lemma KeepsTheNewest(ts: seq<nat>, directory: set<string>)
    requires Sorted(Names(ts)) && EquallyLong(ts)
    ensures var left := Cleaned(directory, Names(ts));
            && (forall i :: 0 <= i < |ts| && Name(ts[i]) in directory ==>
                  (Name(ts[i]) in left <==> |Newer(ts, ts[i])| < 3))
            && (forall f :: f in directory && f !in Names(ts) ==> f in left)
  {
    SortedByTime(ts);
    forall i | 0 <= i < |ts| ensures |Newer(ts, ts[i])| == |ts| - 1 - i {
      assert forall j :: 0 <= j < |ts| ==> (ts[j] > ts[i] <==> j > i);
      assert Newer(ts, ts[i]) == Between(i + 1, |ts|);
    }
  }

  lemma {:induction false} FirstSize(names: seq<string>, m: nat)
    requires m <= |names| && forall i, j :: 0 <= i < j < |names| ==> names[i] != names[j]
    ensures |First(names, m)| == m
  {
    if m == 0 {
      assert First(names, m) == {};
    } else {
      FirstSize(names, m - 1);
      assert First(names, m) == First(names, m - 1) + {names[m - 1]};
    }
  }

  lemma SizeWithout(all: set<string>, part: set<string>)
    requires part <= all
    ensures |all - part| == |all| - |part|
  {
    assert all == (all - part) + part;
  }

  lemma SizeLeft(names: seq<string>, n: int)
    requires n == |names| - MAX_TO_KEEP && forall i, j :: 0 <= i < j < |names| ==> names[i] != names[j]
    ensures |First(names, |names|) - First(names, n)| == if n < 0 then |names| else MAX_TO_KEEP
  {
    FirstSize(names, |names|);
    if n <= 0 {
      assert First(names, n) == {};
      assert First(names, |names|) - {} == First(names, |names|);
    } else {
      FirstSize(names, n);
      SizeWithout(First(names, |names|), First(names, n));
    }
  }

  predicate DistinctStrings(names: seq<string>) {
    forall i, j :: 0 <= i < j < |names| ==> names[i] != names[j]
  }

  lemma CleanedSize(names: seq<string>)
    requires DistinctStrings(names)
    ensures |Cleaned(First(names, |names|), names)| == if |names| < MAX_TO_KEEP then |names| else MAX_TO_KEEP
  {
    SizeLeft(names, |names| - MAX_TO_KEEP);
  }

  lemma DistinctNames(ts: seq<nat>)
    requires Sorted(Names(ts)) && EquallyLong(ts)
    ensures DistinctStrings(Names(ts))
  {
    SortedByTime(ts);
  }

  /** Its partner in numbers: min(3, n) snapshots are left. */
  lemma KeepsThree(ts: seq<nat>)
    requires Sorted(Names(ts)) && EquallyLong(ts)
    ensures |Cleaned(First(Names(ts), |ts|), Names(ts))| == if |ts| < 3 then |ts| else 3
  {
    DistinctNames(ts);
    CleanedSize(Names(ts));
  }

  /** Without equal lengths it fails: of snapshots at 9, 10, 11 and 12 the oldest stays and the next one goes. */
  lemma CleaningKeepsTheOldest()
    ensures Sorted(Names([10, 11, 12, 9]))
    ensures var left := Cleaned({Name(9), Name(10), Name(11), Name(12)}, Names([10, 11, 12, 9]));
            Name(9) in left && Name(10) !in left
  {
    var ts := [10, 11, 12, 9];
    SmallDecimals();
    forall i, j | 0 <= i < j < 4 ensures LexLess(Names(ts)[i], Names(ts)[j]) {
      if j < 3 {
        NamesOrdered(ts[i], ts[j]);
      } else {
        LongerNamesOrderedIff(9, ts[i]);
      }
    }
    assert Names(ts)[0] == Name(10);
    forall i | 0 <= i < 1 ensures Names(ts)[i] != Name(9) {
      LexIrreflexive(Name(9));
      assert LexLess(Names(ts)[0], Names(ts)[3]);
    }
  }

  lemma SmallDecimals()
    ensures Decimal(9) == "9" && Name(9) == "snapshot_9.snap"
    ensures forall d :: 10 <= d < 13 ==> |Decimal(d)| == 2 && LexLess(Decimal(d)[..1], "9")
  {
    forall d | 10 <= d < 13 ensures |Decimal(d)| == 2 && LexLess(Decimal(d)[..1], "9") {
      assert Decimal(d) == ['1', Digit(d - 10)];
    }
  }

  // ---------------------------------------------------------------- timestamps of any length

  /** A larger number is not shorter. */
  lemma {:induction false} DecimalLength(a: nat, b: nat)
    requires a <= b
    ensures |Decimal(a)| <= |Decimal(b)|
  {
    if a >= 10 {
      DecimalLength(a / 10, b / 10);
    }
  }

  /** Of the listed snapshots exactly the newest three are left. */
  predicate NewestLeft(ts: seq<nat>) {
    var left := Cleaned(First(Names(ts), |ts|), Names(ts));
    forall i :: 0 <= i < |ts| ==> (Name(ts[i]) in left <==> |Newer(ts, ts[i])| < 3)
  }

  /** No older snapshot, with a shorter timestamp, beats the head of the timestamp of one of the newest three. */
  predicate HeadsInOrder(ts: seq<nat>) {
    forall i, j :: 0 <= i < |ts| && 0 <= j < |ts| && |Newer(ts, ts[j])| < MAX_TO_KEEP <= |Newer(ts, ts[i])| ==>
      HeadInOrder(Decimal(ts[i]), Decimal(ts[j]))
  }

  predicate HeadInOrder(older: string, newer: string) {
    |older| < |newer| ==> !LexLess(newer[..|older|], older)
  }

  /** Names are listed in the order of their places. */
  lemma PlaceOrder(ts: seq<nat>, i: nat, j: nat)
    requires Sorted(Names(ts)) && i < |ts| && j < |ts|
    ensures LexLess(Name(ts[i]), Name(ts[j])) <==> i < j
    ensures ts[i] == ts[j] <==> i == j
  {
    var names := Names(ts);
    LexIrreflexive(names[i]);
    if i < j {
      assert LexLess(names[i], names[j]);
    } else if j < i {
      assert LexLess(names[j], names[i]);
      LexAsymmetric(names[j], names[i]);
    }
  }

  lemma {:induction false} LexAsymmetric(s: string, t: string)
    requires LexLess(s, t)
    ensures !LexLess(t, s)
  {
    if s != [] && s[0] == t[0] {
      LexAsymmetric(s[1..], t[1..]);
    }
  }

  lemma NewerSubset(ts: seq<nat>, t: nat, places: set<nat>)
    requires Newer(ts, t) <= places
    ensures |Newer(ts, t)| <= |places|
  {
    SubsetSize(Newer(ts, t), places);
  }

  lemma SubsetSize(a: set<nat>, b: set<nat>)
    requires a <= b
    ensures |a| <= |b|
  {
    assert b == a + (b - a);
  }

  /** An older snapshot has more that are newer. */
  lemma FewerNewer(ts: seq<nat>, i: nat, j: nat)
    requires i < |ts| && j < |ts| && |Newer(ts, ts[j])| < |Newer(ts, ts[i])|
    ensures ts[i] < ts[j]
  {
    if ts[j] <= ts[i] {
      SubsetSize(Newer(ts, ts[i]), Newer(ts, ts[j]));
    }
  }

  /** For an old snapshot and one of the newest, the heads are in order exactly when their places are. */
  lemma HeadsAndPlaces(ts: seq<nat>, i: nat, j: nat)
    requires Sorted(Names(ts)) && i < |ts| && j < |ts| && |Newer(ts, ts[j])| < MAX_TO_KEEP <= |Newer(ts, ts[i])|
    ensures HeadInOrder(Decimal(ts[i]), Decimal(ts[j])) <==> i < j
  {
    FewerNewer(ts, i, j);
    DecimalLength(ts[i], ts[j]);
    PlaceOrder(ts, i, j);
    if |Decimal(ts[i])| == |Decimal(ts[j])| {
      NamesOrdered(ts[i], ts[j]);
    } else {
      LongerNamesOrderedIff(ts[i], ts[j]);
    }
  }

  /** The newest of the first `n` places. */
  lemma {:induction false} NewestOf(ts: seq<nat>, n: nat) returns (k: nat)
    requires 0 < n <= |ts|
    ensures k < n && forall i :: 0 <= i < n ==> ts[i] <= ts[k]
  {
    k := 0;
    if n > 1 {
      k := NewestOf(ts, n - 1);
      k := if ts[k] < ts[n - 1] then n - 1 else k;
    }
  }

  /** The oldest of the places from `n` on. */
  lemma {:induction false} OldestFrom(ts: seq<nat>, n: nat) returns (k: nat)
    requires n < |ts|
    ensures n <= k < |ts| && forall i :: n <= i < |ts| ==> ts[k] <= ts[i]
    decreases |ts| - n
  {
    k := n;
    if n + 1 < |ts| {
      k := OldestFrom(ts, n + 1);
      k := if ts[k] < ts[n] then k else n;
    }
  }

  /** One of the last three places, if every old snapshot comes before every one of the newest. */
  lemma LastAreNewest(ts: seq<nat>, i: nat)
    requires HeadsInOrder(ts) && Sorted(Names(ts)) && |ts| - MAX_TO_KEEP <= i < |ts|
    ensures |Newer(ts, ts[i])| < MAX_TO_KEEP
  {
    var k := NewestOf(ts, i + 1);
    assert Newer(ts, ts[k]) <= Between(i + 1, |ts|);
    NewerSubset(ts, ts[k], Between(i + 1, |ts|));
    if |Newer(ts, ts[i])| >= MAX_TO_KEEP {
      HeadsAndPlaces(ts, i, k);
    }
  }

  lemma OthersNewer(ts: seq<nat>, i: nat, k: nat)
    requires i <= k < |ts| && forall j: nat :: i <= j < |ts| && j != k ==> ts[j] > ts[k]
    ensures |Newer(ts, ts[k])| >= |ts| - i - 1
  {
    var others := Between(i, |ts|) - {k};
    assert others + {k} == Between(i, |ts|);
    SubsetSize(others, Newer(ts, ts[k]));
  }

  lemma EarlierAreOld(ts: seq<nat>, i: nat)
    requires HeadsInOrder(ts) && Sorted(Names(ts)) && i < |ts| - MAX_TO_KEEP
    ensures |Newer(ts, ts[i])| >= MAX_TO_KEEP
  {
    var k := OldestFrom(ts, i);
    forall j: nat | i <= j < |ts| && j != k ensures ts[j] > ts[k] {
      PlaceOrder(ts, j, k);
    }
    OthersNewer(ts, i, k);
    if |Newer(ts, ts[i])| < MAX_TO_KEEP {
      HeadsAndPlaces(ts, k, i);
    }
  }

  lemma LeftByPlace(ts: seq<nat>, i: nat)
    requires Sorted(Names(ts)) && i < |ts|
    ensures Name(ts[i]) in Cleaned(First(Names(ts), |ts|), Names(ts)) <==> i >= |ts| - MAX_TO_KEEP
  {
    var names := Names(ts);
    forall j | 0 <= j < |ts| && names[j] == names[i] ensures j == i {
      PlaceOrder(ts, i, j);
      PlaceOrder(ts, j, i);
      LexIrreflexive(names[i]);
    }
    assert names[i] in First(names, |ts|);
  }

  /**
   Cleaning a directory of snapshots with any timestamps leaves exactly the newest three if and only if, for
   none of them, an older snapshot has a shorter timestamp larger than the head of its own.
   */
  lemma NewestLeftIff(ts: seq<nat>)
    requires Sorted(Names(ts))
    ensures NewestLeft(ts) <==> HeadsInOrder(ts)
  {
    forall i | 0 <= i < |ts| ensures
      Name(ts[i]) in Cleaned(First(Names(ts), |ts|), Names(ts)) <==> i >= |ts| - MAX_TO_KEEP
    {
      LeftByPlace(ts, i);
    }
    if HeadsInOrder(ts) {
      forall i | 0 <= i < |ts| ensures |Newer(ts, ts[i])| < MAX_TO_KEEP <==> i >= |ts| - MAX_TO_KEEP {
        if i >= |ts| - MAX_TO_KEEP {
          LastAreNewest(ts, i);
        } else {
          EarlierAreOld(ts, i);
        }
      }
    }
    if NewestLeft(ts) {
      forall i, j | 0 <= i < |ts| && 0 <= j < |ts| && |Newer(ts, ts[j])| < MAX_TO_KEEP <= |Newer(ts, ts[i])|
        ensures HeadInOrder(Decimal(ts[i]), Decimal(ts[j]))
      {
        HeadsAndPlaces(ts, i, j);
      }
    }
  }
}
