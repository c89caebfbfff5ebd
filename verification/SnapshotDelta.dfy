/**
 Reversible deltas between two byte strings: the runs of bytes that differ, each
 with its old and its new bytes, and what the longer string has beyond the
 shorter. The same encoded delta leads from the old string to the new one and
 back.
 */
module SnapshotDelta {
  type Byte = b: int | 0 <= b < 256

  const MAX_SIZE: nat := 0x1_0000_0000

  datatype Run = Run(pos: nat, before: seq<Byte>, after: seq<Byte>)

  /** The end of the old string beyond the shared part, or the end of the new one. */
  datatype Tail = None | Cut(bytes: seq<Byte>) | Grown(bytes: seq<Byte>)

  datatype Delta = Delta(runs: seq<Run>, tail: Tail)

  function RunEnd(r: Run): nat {
    r.pos + |r.before|
  }

  function End(runs: seq<Run>): nat {
    if runs == [] then 0 else RunEnd(runs[|runs| - 1])
  }

  function Word(n: nat): (w: seq<Byte>)
    ensures |w| == 4
  {
    [n / 0x100_0000 % 256, n / 0x1_0000 % 256, n / 0x100 % 256, n % 256]
  }

  function WordValue(w: seq<Byte>): nat
    requires |w| == 4
  {
    var b0: int, b1: int, b2: int, b3: int := w[0], w[1], w[2], w[3];
    b0 * 0x100_0000 + b1 * 0x1_0000 + b2 * 0x100 + b3
  }

  lemma WordRoundTrip(n: nat)
    requires n < MAX_SIZE
    ensures WordValue(Word(n)) == n
  {
  }

  function EncodeRun(r: Run): seq<Byte> {
    [0] + Word(|r.before|) + Word(r.pos) + r.before + r.after
  }

  /** A run on disk: a zero, the length and the place as four bytes each, high byte first, the old bytes and the new ones. */
  lemma EncodedRun(r: Run)
    requires |r.before| == |r.after| < MAX_SIZE && r.pos < MAX_SIZE
    ensures
      var n := |r.before|;
      var c: seq<int> := EncodeRun(r);
      && |c| == 9 + 2 * n && c[0] == 0
      && n == c[1] * 0x100_0000 + c[2] * 0x1_0000 + c[3] * 0x100 + c[4]
      && r.pos == c[5] * 0x100_0000 + c[6] * 0x1_0000 + c[7] * 0x100 + c[8]
      && c[9..9 + n] == r.before && c[9 + n..] == r.after
  {
    WordRoundTrip(|r.before|);
    WordRoundTrip(r.pos);
  }

  function EncodeRuns(runs: seq<Run>): seq<Byte> {
    if runs == [] then [] else EncodeRuns(runs[..|runs| - 1]) + EncodeRun(runs[|runs| - 1])
  }

  function EncodeTail(t: Tail): seq<Byte> {
    match t
    case None => []
    case Cut(bytes) => [1] + bytes
    case Grown(bytes) => [2] + bytes
  }

  function Encode(d: Delta): seq<Byte> {
    if d.runs == [] && d.tail == None then [3] else EncodeRuns(d.runs) + EncodeTail(d.tail)
  }

  /** A delta on disk: its runs in order, then 1 and the bytes cut off, or 2 and the bytes grown; 3 alone if there is nothing. */
  lemma {:induction false} EncodedDelta(runs: seq<Run>, r: Run, tail: Tail)
    ensures Encode(Delta([], None)) == [3]
    ensures tail != None ==> Encode(Delta([], tail)) == [if tail.Cut? then 1 else 2] + tail.bytes
    ensures Encode(Delta([r] + runs, tail))
         == EncodeRun(r) + EncodeRuns(runs) + if tail == None then [] else [if tail.Cut? then 1 else 2] + tail.bytes
  {
    FirstRun(r, runs);
    NoRuns();
    hide EncodeRun, EncodeRuns;
    var all := [r] + runs;
    assert all != [];
    assert [] + EncodeTail(tail) == EncodeTail(tail);
  }

  lemma NoRuns()
    ensures EncodeRuns([]) == []
  {
  }

  lemma {:induction false} FirstRun(r: Run, runs: seq<Run>)
    ensures EncodeRuns([r] + runs) == EncodeRun(r) + EncodeRuns(runs)
  {
    var all := [r] + runs;
    if runs == [] {
      assert all == [r] && all[..0] == [];
    } else {
      assert all[..|all| - 1] == [r] + runs[..|runs| - 1] && all[|all| - 1] == runs[|runs| - 1];
      FirstRun(r, runs[..|runs| - 1]);
    }
  }

  /** Runs in ascending order that lie within the first `limit` bytes. */
  predicate RunsOk(runs: seq<Run>, limit: nat) {
    runs == [] ||
    var r := runs[|runs| - 1];
    && |r.before| == |r.after| && End(runs[..|runs| - 1]) <= r.pos && RunEnd(r) <= limit
    && RunsOk(runs[..|runs| - 1], limit)
  }

  /** What reading from `i` up to `j` gives: past the end of a file the reader gives 255, the low byte of `EOF`. */
  function Copied(src: seq<Byte>, i: nat, j: nat): (r: seq<Byte>)
    requires i <= j
    ensures |r| == j - i && (j <= |src| ==> r == src[i..j])
  {
    seq(j - i, k requires 0 <= k < j - i => if i + k < |src| then src[i + k] else 255)
  }

  /** The bytes up to the end of the runs, with one side of each run put in. */
  function PatchRuns(runs: seq<Run>, src: seq<Byte>, reverse: bool): seq<Byte>
    requires RunsOk(runs, MAX_SIZE - 1)
  {
    if runs == [] then []
    else
      var init, r := runs[..|runs| - 1], runs[|runs| - 1];
      PatchRuns(init, src, reverse) + Copied(src, End(init), r.pos) + (if reverse then r.before else r.after)
  }

  /** What is left of a file up to some place, if that has not been passed. */
  function Rest(src: seq<Byte>, from: nat, to: nat): seq<Byte>
    requires to <= |src|
  {
    if from < to then src[from..to] else []
  }

  /** How many bytes the patch drops at the end. */
  function Dropped(d: Delta, reverse: bool): nat {
    if (d.tail.Cut? && !reverse) || (d.tail.Grown? && reverse) then |d.tail.bytes| else 0
  }

  /** A delta whose patch ends: it does not drop more bytes than the file has. */
  predicate Fits(d: Delta, src: seq<Byte>, reverse: bool) {
    RunsOk(d.runs, MAX_SIZE - 1) && |src| < MAX_SIZE && Dropped(d, reverse) <= |src|
  }

  function Patch(d: Delta, src: seq<Byte>, reverse: bool): seq<Byte>
    requires Fits(d, src, reverse)
  {
    PatchRuns(d.runs, src, reverse) + Rest(src, End(d.runs), |src| - Dropped(d, reverse))
    + if d.tail == None || Dropped(d, reverse) > 0 then [] else d.tail.bytes
  }

  /** The first `end` bytes of `a` and `b` differ in just the runs. */
  predicate Covers(runs: seq<Run>, a: seq<Byte>, b: seq<Byte>, end: nat)
    requires end <= |a| && end <= |b|
    decreases |runs|
  {
    if runs == [] then a[..end] == b[..end]
    else
      var init, r := runs[..|runs| - 1], runs[|runs| - 1];
      && |r.before| == |r.after| && RunEnd(r) <= end && End(init) <= r.pos
      && a[RunEnd(r)..end] == b[RunEnd(r)..end] && a[r.pos..RunEnd(r)] == r.before && b[r.pos..RunEnd(r)] == r.after
      && Covers(init, a, b, r.pos)
  }

  lemma {:induction false} CoversOk(runs: seq<Run>, a: seq<Byte>, b: seq<Byte>, end: nat, limit: nat)
    requires end <= |a| && end <= |b| && end <= limit && Covers(runs, a, b, end)
    ensures RunsOk(runs, limit) && End(runs) <= end
    decreases |runs|
  {
    if runs != [] {
      CoversOk(runs[..|runs| - 1], a, b, runs[|runs| - 1].pos, limit);
    }
  }

  /** Patching one string gives the other, up to the end of what the runs cover, in either direction. */
  lemma {:induction false} PatchCovered(runs: seq<Run>, a: seq<Byte>, b: seq<Byte>, end: nat, src: seq<Byte>, reverse: bool)
    requires end <= |a| && end <= |b| && Covers(runs, a, b, end) && end <= |src| < MAX_SIZE
    requires src[..end] == if reverse then b[..end] else a[..end]
    ensures RunsOk(runs, MAX_SIZE - 1) && End(runs) <= end
    ensures PatchRuns(runs, src, reverse) + src[End(runs)..end] == if reverse then a[..end] else b[..end]
    decreases |runs|
  {
    CoversOk(runs, a, b, end, MAX_SIZE - 1);
    var dst := if reverse then a else b;
    if runs != [] {
      var init, r := runs[..|runs| - 1], runs[|runs| - 1];
      var put := if reverse then r.before else r.after;
      CoversOk(init, a, b, r.pos, MAX_SIZE - 1);
      assert src[..r.pos] == (if reverse then b[..r.pos] else a[..r.pos]) by {
        assert src[..end][..r.pos] == src[..r.pos];
      }
      PatchCovered(init, a, b, r.pos, src, reverse);
      assert PatchRuns(init, src, reverse) + src[End(init)..r.pos] == dst[..r.pos];
      assert src[RunEnd(r)..end] == dst[RunEnd(r)..end] by {
        SliceOf(src, if reverse then b else a, RunEnd(r), end);
      }
      assert dst[r.pos..RunEnd(r)] == put;
      ThreeParts(dst, r.pos, RunEnd(r), end);
    } else {
      assert src[0..end] == src[..end];
    }
  }

  lemma SliceOf(s: seq<Byte>, t: seq<Byte>, i: nat, j: nat)
    requires i <= j <= |s| && j <= |t| && s[..j] == t[..j]
    ensures s[i..j] == t[i..j]
  {
    assert s[..j][i..] == s[i..j] && t[..j][i..] == t[i..j];
  }

  lemma ThreeParts(s: seq<Byte>, i: nat, j: nat, k: nat)
    requires i <= j <= k <= |s|
    ensures s[..i] + s[i..j] + s[j..k] == s[..k]
  {
  }

  /** The scan of two strings for runs: the finished ones, and one that may still go on. */
  datatype Scan = Scan(runs: seq<Run>, open: bool, run: Run)

  /** One more pair of bytes, at place `i`. */
  function Scanned(s: Scan, i: nat, x: Byte, y: Byte): Scan {
    if x == y then
      if s.open then Scan(s.runs + [s.run], false, s.run) else s
    else if s.open then s.(run := Run(s.run.pos, s.run.before + [x], s.run.after + [y]))
    else Scan(s.runs, true, Run(i, [x], [y]))
  }

  function ScanUpTo(a: seq<Byte>, b: seq<Byte>, i: nat): Scan
    requires i <= |a| && i <= |b|
  {
    if i == 0 then Scan([], false, Run(0, [], []))
    else Scanned(ScanUpTo(a, b, i - 1), i - 1, a[i - 1], b[i - 1])
  }

  function Closed(s: Scan): seq<Run> {
    if s.open then s.runs + [s.run] else s.runs
  }

  function Shared(a: seq<Byte>, b: seq<Byte>): nat {
    if |a| < |b| then |a| else |b|
  }

  /** The delta between two strings. */
  function DeltaOf(a: seq<Byte>, b: seq<Byte>): Delta {
    var n := Shared(a, b);
    Delta(Closed(ScanUpTo(a, b, n)), if |a| > n then Cut(a[n..]) else if |b| > n then Grown(b[n..]) else None)
  }

  lemma {:induction false} ScanCovers(a: seq<Byte>, b: seq<Byte>, i: nat)
    requires i <= |a| && i <= |b|
    ensures
      var s := ScanUpTo(a, b, i);
      && Covers(Closed(s), a, b, i)
      && (s.open ==> |s.run.before| == |s.run.after| && 0 < |s.run.before| && RunEnd(s.run) == i)
  {
    if i > 0 {
      ScanCovers(a, b, i - 1);
      ScannedCovers(ScanUpTo(a, b, i - 1), a, b, i - 1);
      hide Covers, Closed, Scanned;
    }
  }

  /** All bytes of a run differ. */
  predicate Differs(r: Run) {
    r.before != [] && |r.before| == |r.after| && forall j :: 0 <= j < |r.before| ==> r.before[j] != r.after[j]
  }

  /** Runs of bytes that differ, with bytes that do not between any two and before `end`. */
  ghost predicate Exact(runs: seq<Run>, end: nat) {
    && (forall k :: 0 <= k < |runs| ==> Differs(runs[k]) && RunEnd(runs[k]) < end)
    && (forall k, l :: 0 <= k < l < |runs| ==> RunEnd(runs[k]) < runs[l].pos)
  }

  lemma ExactJoin(runs: seq<Run>, r: Run, end: nat)
    requires Exact(runs, r.pos) && Differs(r) && RunEnd(r) < end
    ensures Exact(runs + [r], end)
  {
    var all := runs + [r];
    assert forall k :: 0 <= k < |runs| ==> all[k] == runs[k];
  }

  lemma ExactLonger(runs: seq<Run>, end: nat, later: nat)
    requires Exact(runs, end) && end <= later
    ensures Exact(runs, later)
  {
  }

  /** What the scan keeps: the finished runs are exact, and so is the open one as far as it goes. */
  ghost predicate ScanOk(s: Scan, i: nat) {
    if s.open then Exact(s.runs, s.run.pos) && Differs(s.run) && RunEnd(s.run) == i else Exact(s.runs, i)
  }

  lemma ScannedExact(s: Scan, i: nat, x: Byte, y: Byte)
    requires ScanOk(s, i)
    ensures ScanOk(Scanned(s, i, x, y), i + 1)
  {
    hide Exact;
    if x == y {
      if s.open {
        ExactJoin(s.runs, s.run, i + 1);
      } else {
        ExactLonger(s.runs, i, i + 1);
      }
    } else if s.open {
      var t := Run(s.run.pos, s.run.before + [x], s.run.after + [y]);
      assert forall j :: 0 <= j < |t.before| ==> t.before[j] != t.after[j];
    }
  }

  lemma {:induction false} ScanKeeps(a: seq<Byte>, b: seq<Byte>, i: nat)
    requires i <= |a| && i <= |b|
    ensures ScanOk(ScanUpTo(a, b, i), i)
  {
    if i > 0 {
      ScanKeeps(a, b, i - 1);
      ScannedExact(ScanUpTo(a, b, i - 1), i - 1, a[i - 1], b[i - 1]);
      hide Scanned;
    }
  }

  /** The runs of a delta are as short and as few as can be: each byte of a run differs, and no two runs touch. */
  lemma {:induction false} DeltaExact(a: seq<Byte>, b: seq<Byte>)
    ensures
      var runs := DeltaOf(a, b).runs;
      && (forall k :: 0 <= k < |runs| ==>
            runs[k].before != [] && |runs[k].before| == |runs[k].after|
            && forall j :: 0 <= j < |runs[k].before| ==> runs[k].before[j] != runs[k].after[j])
      && (forall k, l :: 0 <= k < l < |runs| ==> runs[k].pos + |runs[k].before| < runs[l].pos)
  {
    var n := Shared(a, b);
    var s := ScanUpTo(a, b, n);
    ScanKeeps(a, b, n);
    if s.open {
      ExactJoin(s.runs, s.run, n + 1);
    }
    hide ScanUpTo;
  }

  lemma {:induction false} ScannedCovers(s: Scan, a: seq<Byte>, b: seq<Byte>, i: nat)
    requires i < |a| && i < |b| && Covers(Closed(s), a, b, i)
    requires s.open ==> |s.run.before| == |s.run.after| && 0 < |s.run.before| && RunEnd(s.run) == i
    ensures
      var t := Scanned(s, i, a[i], b[i]);
      && Covers(Closed(t), a, b, i + 1)
      && (t.open ==> |t.run.before| == |t.run.after| && 0 < |t.run.before| && RunEnd(t.run) == i + 1)
  {
    hide Covers;
    if a[i] == b[i] {
      CoversSame(Closed(s), a, b, i);
    } else if s.open {
      CoversLonger(s.runs, s.run, a, b, i);
    } else {
      CoversOpen(s.runs, a, b, i);
    }
  }

  lemma SliceMore(s: seq<Byte>, i: nat, j: nat)
    requires i <= j < |s|
    ensures s[i..j + 1] == s[i..j] + [s[j]]
  {
  }

  /** One byte more that is the same. */
  lemma {:induction false} CoversSame(runs: seq<Run>, a: seq<Byte>, b: seq<Byte>, i: nat)
    requires i < |a| && i < |b| && a[i] == b[i] && Covers(runs, a, b, i)
    ensures Covers(runs, a, b, i + 1)
  {
    var e := End(runs);
    CoversOk(runs, a, b, i, i);
    SliceMore(a, e, i);
    SliceMore(b, e, i);
    if runs == [] {
      assert a[0..i] == a[..i] && b[0..i] == b[..i] && a[0..i + 1] == a[..i + 1] && b[0..i + 1] == b[..i + 1];
    }
  }

  /** A run begins. */
  lemma {:induction false} CoversOpen(runs: seq<Run>, a: seq<Byte>, b: seq<Byte>, i: nat)
    requires i < |a| && i < |b| && Covers(runs, a, b, i)
    ensures Covers(runs + [Run(i, [a[i]], [b[i]])], a, b, i + 1)
  {
    var rs := runs + [Run(i, [a[i]], [b[i]])];
    CoversOk(runs, a, b, i, i);
    assert rs[..|rs| - 1] == runs;
    assert a[i..i + 1] == [a[i]] && b[i..i + 1] == [b[i]] && a[i + 1..i + 1] == b[i + 1..i + 1];
  }

  /** A run goes on. */
  lemma {:induction false} CoversLonger(runs: seq<Run>, r: Run, a: seq<Byte>, b: seq<Byte>, i: nat)
    requires i < |a| && i < |b| && Covers(runs + [r], a, b, i) && RunEnd(r) == i
    ensures Covers(runs + [Run(r.pos, r.before + [a[i]], r.after + [b[i]])], a, b, i + 1)
  {
    var q := Run(r.pos, r.before + [a[i]], r.after + [b[i]]);
    assert (runs + [r])[..|runs|] == runs && (runs + [q])[..|runs|] == runs;
    SliceMore(a, r.pos, i);
    SliceMore(b, r.pos, i);
    assert a[i + 1..i + 1] == b[i + 1..i + 1];
  }

  /** From one encoded delta, the forward patch of the old string is the new one, and the reverse patch of the new is the old. */
  lemma {:induction false} RoundTrip(a: seq<Byte>, b: seq<Byte>)
    requires |a| < MAX_SIZE && |b| < MAX_SIZE
    ensures Fits(DeltaOf(a, b), a, false) && Patch(DeltaOf(a, b), a, false) == b
    ensures Fits(DeltaOf(a, b), b, true) && Patch(DeltaOf(a, b), b, true) == a
  {
    hide DeltaOf, Fits, Patch;
    OneWay(a, b, false);
    OneWay(a, b, true);
  }

  lemma {:induction false} OneWay(a: seq<Byte>, b: seq<Byte>, reverse: bool)
    requires |a| < MAX_SIZE && |b| < MAX_SIZE
    ensures
      var src, dst := if reverse then b else a, if reverse then a else b;
      Fits(DeltaOf(a, b), src, reverse) && Patch(DeltaOf(a, b), src, reverse) == dst
  {
    var n, d, src := Shared(a, b), DeltaOf(a, b), if reverse then b else a;
    ScanCovers(a, b, n);
    PatchCovered(d.runs, a, b, n, src, reverse);
    hide ScanUpTo, Closed, Covers, RunsOk, PatchRuns, End;
    Whole(a, n);
    Whole(b, n);
    RestIs(src, End(d.runs), n);
  }

  lemma Whole(s: seq<Byte>, n: nat)
    requires n <= |s|
    ensures s == s[..n] + s[n..] && (n == |s| ==> s[..n] == s)
  {
  }

  lemma RestIs(s: seq<Byte>, e: nat, n: nat)
    requires e <= n <= |s|
    ensures Rest(s, e, n) == s[e..n]
  {
  }
}
