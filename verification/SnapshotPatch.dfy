/**
 Generating and applying deltas byte by byte. Files are byte strings, and
 compression is left out.
 */
module SnapshotPatch {
  import opened SnapshotDelta

  /** A run flushed to the buffer. */
  method PushRun(buf: seq<Byte>, len: nat, pos: nat, inOld: seq<Byte>, inNew: seq<Byte>) returns (r: seq<Byte>)
    requires len == |inOld| && len < MAX_SIZE && pos < MAX_SIZE
    ensures r == buf + EncodeRun(Run(pos, inOld, inNew))
  {
    r := buf + [0];
    r := r + [len / 0x100_0000 % 256];
    r := r + [len / 0x1_0000 % 256];
    r := r + [len / 0x100 % 256];
    r := r + [len % 256];
    r := r + [pos / 0x100_0000 % 256];
    r := r + [pos / 0x1_0000 % 256];
    r := r + [pos / 0x100 % 256];
    r := r + [pos % 256];
    assert r == buf + ([0] + Word(len) + Word(pos));
    r := r + inOld;
    r := r + inNew;
    assert r == buf + EncodeRun(Run(pos, inOld, inNew)) by {
      Assoc(buf, [0] + Word(len) + Word(pos), inOld, inNew);
    }
  }

  lemma Assoc(a: seq<Byte>, b: seq<Byte>, c: seq<Byte>, d: seq<Byte>)
    ensures a + b + c + d == a + (b + c + d)
  {
  }

  method GenerateDiff(old_: seq<Byte>, new_: seq<Byte>) returns (buf: seq<Byte>)
    requires |old_| < MAX_SIZE && |new_| < MAX_SIZE
    ensures buf == Encode(DeltaOf(old_, new_))
  {
    hide ScanUpTo, EncodeRuns, EncodeRun, Encode;
    buf := [];
    ScanNone(old_, new_);
    var sharedSize := if |old_| < |new_| then |old_| else |new_|;
    var currentIsDiff, currentDiffLen, currentDiffPos := false, 0, 0;
    var inOld: seq<Byte>, inNew: seq<Byte> := [], [];
    var i := 0;
    while i < sharedSize
      invariant 0 <= i <= sharedSize
      invariant buf == EncodeRuns(ScanUpTo(old_, new_, i).runs) && currentIsDiff == ScanUpTo(old_, new_, i).open
      invariant currentIsDiff ==> ScanUpTo(old_, new_, i).run == Run(currentDiffPos, inOld, inNew)
      invariant currentDiffLen == |inOld| <= i && currentDiffPos <= i && (!currentIsDiff ==> inOld == [] && inNew == [])
    {
      ScanNext(old_, new_, i);
      var o, n := old_[i], new_[i];
      if o == n {
        if currentIsDiff {
          PushedRun(ScanUpTo(old_, new_, i).runs, Run(currentDiffPos, inOld, inNew));
          buf := PushRun(buf, currentDiffLen, currentDiffPos, inOld, inNew);
          currentIsDiff, currentDiffLen := false, 0;
          inOld, inNew := [], [];
        }
      } else {
        if currentIsDiff {
          inOld := inOld + [o];
          inNew := inNew + [n];
          currentDiffLen := currentDiffLen + 1;
        } else {
          currentIsDiff, currentDiffLen, currentDiffPos := true, 1, i;
          inOld := inOld + [o];
          inNew := inNew + [n];
        }
      }
      i := i + 1;
    }
    ghost var runs := Closed(ScanUpTo(old_, new_, sharedSize));
    if currentIsDiff {
      PushedRun(ScanUpTo(old_, new_, sharedSize).runs, Run(currentDiffPos, inOld, inNew));
      buf := PushRun(buf, currentDiffLen, currentDiffPos, inOld, inNew);
    }
    assert buf == EncodeRuns(runs);
    if |old_| > sharedSize {
      buf := buf + [1] + old_[sharedSize..];
      assert buf == EncodeRuns(runs) + ([1] + old_[sharedSize..]);
    }
    if |new_| > sharedSize {
      buf := buf + [2] + new_[sharedSize..];
      assert buf == EncodeRuns(runs) + ([2] + new_[sharedSize..]);
    }
    EncodedEmpty(runs);
    if |buf| == 0 {
      buf := buf + [3];
    }
    DiffEncoded(old_, new_, runs);
  }

  lemma ScanNone(a: seq<Byte>, b: seq<Byte>)
    ensures ScanUpTo(a, b, 0).runs == [] && !ScanUpTo(a, b, 0).open && EncodeRuns([]) == []
  {
  }

  lemma {:induction false} ScanNext(a: seq<Byte>, b: seq<Byte>, i: nat)
    requires i < |a| && i < |b|
    ensures
      var s, x, y := ScanUpTo(a, b, i), a[i], b[i];
      ScanUpTo(a, b, i + 1) ==
        if x == y then (if s.open then Scan(s.runs + [s.run], false, s.run) else s)
        else if s.open then s.(run := Run(s.run.pos, s.run.before + [x], s.run.after + [y]))
        else Scan(s.runs, true, Run(i, [x], [y]))
  {
  }

  lemma {:induction false} DiffEncoded(a: seq<Byte>, b: seq<Byte>, runs: seq<Run>)
    requires runs == Closed(ScanUpTo(a, b, Shared(a, b)))
    ensures
      var n := Shared(a, b);
      Encode(DeltaOf(a, b)) ==
        if |a| > n then EncodeRuns(runs) + ([1] + a[n..])
        else if |b| > n then EncodeRuns(runs) + ([2] + b[n..])
        else if runs == [] then [3] else EncodeRuns(runs)
  {
    assert EncodeRuns(runs) + [] == EncodeRuns(runs);
  }

  lemma {:induction false} PushedRun(runs: seq<Run>, r: Run)
    ensures EncodeRuns(runs + [r]) == EncodeRuns(runs) + EncodeRun(r)
  {
    assert (runs + [r])[..|runs|] == runs;
  }

  lemma {:induction false} EncodedEmpty(runs: seq<Run>)
    ensures EncodeRuns(runs) == [] <==> runs == []
  {
  }

  /** The bytes of one run, where they stand in the encoded delta. */
  lemma {:induction false} RunAt(d: Delta, k: nat)
    requires k < |d.runs|
    ensures
      var buf, cnt, r := Encode(d), |EncodeRuns(d.runs[..k])|, d.runs[k];
      && cnt + |EncodeRun(r)| <= |buf| && buf[cnt..cnt + |EncodeRun(r)|] == EncodeRun(r)
      && |EncodeRuns(d.runs[..k + 1])| == cnt + |EncodeRun(r)|
  {
    var rest := RunPrefix(d.runs, k + 1);
    var head, mid, tail := EncodeRuns(d.runs[..k]), EncodeRun(d.runs[k]), EncodeTail(d.tail);
    assert d.runs[..k + 1][..k] == d.runs[..k];
    assert EncodeRuns(d.runs[..k + 1]) == head + mid;
    assert Encode(d) == (head + mid + rest) + tail;
    Middle(head, mid, rest + tail);
    assert (head + mid + rest) + tail == head + mid + (rest + tail);
  }

  lemma Middle(a: seq<Byte>, b: seq<Byte>, c: seq<Byte>)
    ensures (a + b + c)[|a|..|a| + |b|] == b
  {
  }

  lemma {:induction false} RunPrefix(runs: seq<Run>, k: nat) returns (rest: seq<Byte>)
    requires k <= |runs|
    ensures EncodeRuns(runs) == EncodeRuns(runs[..k]) + rest
    decreases |runs|
  {
    if k == |runs| {
      rest := [];
      assert runs[..k] == runs;
    } else {
      var init := runs[..|runs| - 1];
      var r := RunPrefix(init, k);
      assert init[..k] == runs[..k];
      rest := r + EncodeRun(runs[|runs| - 1]);
    }
  }

  /** The flag byte after some of the runs tells what comes next. */
  lemma {:induction false} FlagAt(d: Delta, k: nat)
    requires k <= |d.runs| && |EncodeRuns(d.runs[..k])| < |Encode(d)|
    ensures
      var buf, cnt := Encode(d), |EncodeRuns(d.runs[..k])|;
      && buf[cnt] <= 3 && (buf[cnt] == 0 <==> k < |d.runs|) && (buf[cnt] == 3 <==> d.runs == [] && d.tail == None)
      && (buf[cnt] == 1 <==> k == |d.runs| && d.tail.Cut?) && (buf[cnt] == 2 <==> k == |d.runs| && d.tail.Grown?)
      && (k == |d.runs| && d.tail != None ==> buf[cnt + 1..] == d.tail.bytes)
  {
    if k < |d.runs| {
      RunAt(d, k);
      assert EncodeRun(d.runs[k])[0] == 0;
      EncodedEmpty(d.runs[..k]);
    } else {
      assert d.runs[..k] == d.runs;
      assert EncodeRuns(d.runs) + [] == EncodeRuns(d.runs);
      if d.tail != None {
        assert Encode(d)[|EncodeRuns(d.runs)|..] == EncodeTail(d.tail);
      }
    }
  }

  /** After the last byte there is no run left, and no tail. */
  lemma {:induction false} AllRead(d: Delta, k: nat)
    requires k <= |d.runs| && |EncodeRuns(d.runs[..k])| == |Encode(d)|
    ensures k == |d.runs| && d.tail == None
  {
    if k < |d.runs| {
      RunAt(d, k);
    } else {
      assert d.runs[..k] == d.runs;
    }
  }

  lemma {:induction false} RunsFit(runs: seq<Run>, k: nat, limit: nat)
    requires k < |runs| && RunsOk(runs, limit)
    ensures RunsOk(runs[..k], limit) && RunsOk(runs[..k + 1], limit) && End(runs[..k]) <= runs[k].pos
    ensures RunEnd(runs[k]) <= limit && |runs[k].before| == |runs[k].after|
    decreases |runs|
  {
    assert runs[..k + 1][..k] == runs[..k];
    if k + 1 == |runs| {
      assert runs[..k + 1] == runs;
    } else {
      var init := runs[..|runs| - 1];
      RunsFit(init, k, limit);
      assert init[..k] == runs[..k] && init[..k + 1] == runs[..k + 1];
    }
  }

  method CopyUpTo(src: seq<Byte>, cursor: nat, limit: nat, out: seq<Byte>) returns (r: seq<Byte>, c: nat)
    ensures c == if cursor < limit then limit else cursor
    ensures r == out + Copied(src, cursor, c)
  {
    r, c := out, cursor;
    while c < limit
      invariant cursor <= c && (c <= limit || c == cursor) && r == out + Copied(src, cursor, c)
    {
      r := r + [if c < |src| then src[c] else 255];
      c := c + 1;
    }
  }

  method ReadWord(buf: seq<Byte>, cnt: nat, ghost n: nat) returns (v: nat)
    requires cnt + 4 <= |buf| && buf[cnt..cnt + 4] == Word(n) && n < MAX_SIZE
    ensures v == n
  {
    var w := buf[cnt..cnt + 4];
    WordRoundTrip(n);
    var b0: int, b1: int, b2: int, b3: int := w[0], w[1], w[2], w[3];
    v := b0 * 0x100_0000 + b1 * 0x1_0000 + b2 * 0x100 + b3;
  }

  /** One run: the bytes before it are copied, its own replaced. */
  method ApplyRun(src: seq<Byte>, buf: seq<Byte>, start: nat, from: nat, isReverse: bool, ghost r: Run, before: seq<Byte>)
    returns (out: seq<Byte>, cnt: nat, cursor: nat)
    requires from <= r.pos && RunEnd(r) < MAX_SIZE && |r.before| == |r.after|
    requires start + |EncodeRun(r)| <= |buf| && buf[start..start + |EncodeRun(r)|] == EncodeRun(r)
    ensures out == before + Copied(src, from, r.pos) + (if isReverse then r.before else r.after)
    ensures cnt == start + |EncodeRun(r)| && cursor == RunEnd(r)
  {
    RunParts(buf, start, r);
    cnt := start + 1;
    var len := ReadWord(buf, cnt, |r.before|);
    cnt := cnt + 4;
    var pos := ReadWord(buf, cnt, r.pos);
    cnt := cnt + 4;
    out, cursor := CopyUpTo(src, from, pos, before);
    var oldBuf, newBuf := buf[cnt..cnt + len], buf[cnt + len..cnt + 2 * len];
    cnt := cnt + 2 * len;
    var put := if !isReverse then newBuf else oldBuf;
    ghost var head := out;
    var i := 0;
    while i < len
      invariant 0 <= i <= len && out == head + put[..i] && cursor == pos + i
    {
      out := out + [put[i]];
      cursor := cursor + 1;
      i := i + 1;
    }
    assert put[..i] == put;
  }

  lemma RunParts(buf: seq<Byte>, start: nat, r: Run)
    requires |r.before| == |r.after|
    requires start + |EncodeRun(r)| <= |buf| && buf[start..start + |EncodeRun(r)|] == EncodeRun(r)
    ensures |EncodeRun(r)| == 9 + 2 * |r.before|
    ensures buf[start + 1..start + 5] == Word(|r.before|) && buf[start + 5..start + 9] == Word(r.pos)
    ensures buf[start + 9..start + 9 + |r.before|] == r.before
    ensures buf[start + 9 + |r.before|..start + 9 + 2 * |r.before|] == r.after
  {
    var e, n := EncodeRun(r), |r.before|;
    RunLayout(r);
    hide EncodeRun, Word;
    Sub(buf, start, e, 1, 5);
    Sub(buf, start, e, 5, 9);
    Sub(buf, start, e, 9, 9 + n);
    Sub(buf, start, e, 9 + n, 9 + 2 * n);
  }

  lemma RunLayout(r: Run)
    requires |r.before| == |r.after|
    ensures
      var e, n := EncodeRun(r), |r.before|;
      && |e| == 9 + 2 * n && e[1..5] == Word(n) && e[5..9] == Word(r.pos) && e[9..9 + n] == r.before
      && e[9 + n..9 + 2 * n] == r.after
  {
    hide Word;
    var n, a, b := |r.before|, Word(|r.before|), Word(r.pos);
    assert EncodeRun(r) == [0] + (a + (b + (r.before + r.after)));
    assert ([0] + (a + (b + (r.before + r.after))))[1..5] == a;
    assert ([0] + (a + (b + (r.before + r.after))))[5..9] == b;
  }

  lemma Sub(buf: seq<Byte>, start: nat, e: seq<Byte>, i: nat, j: nat)
    requires start + |e| <= |buf| && buf[start..start + |e|] == e && i <= j <= |e|
    ensures buf[start + i..start + j] == e[i..j]
  {
    forall k | i <= k < j ensures buf[start + k] == e[k] {
      assert buf[start..start + |e|][k] == buf[start + k];
    }
    assert buf[start + i..start + j] == e[i..j];
  }

  lemma {:induction false} AtStart(d: Delta, src: seq<Byte>, reverse: bool)
    ensures d.runs[..0] == [] && EncodeRuns(d.runs[..0]) == [] && End(d.runs[..0]) == 0
    ensures RunsOk(d.runs[..0], MAX_SIZE - 1) && PatchRuns(d.runs[..0], src, reverse) == []
  {
  }

  lemma {:induction false} AfterRun(runs: seq<Run>, k: nat, src: seq<Byte>, reverse: bool)
    requires k < |runs| && RunsOk(runs[..k], MAX_SIZE - 1) && RunsOk(runs[..k + 1], MAX_SIZE - 1)
    ensures End(runs[..k + 1]) == RunEnd(runs[k]) < MAX_SIZE && End(runs[..k]) <= runs[k].pos
    ensures PatchRuns(runs[..k + 1], src, reverse)
         == PatchRuns(runs[..k], src, reverse) + Copied(src, End(runs[..k]), runs[k].pos)
            + (if reverse then runs[k].before else runs[k].after)
  {
    assert runs[..k + 1][..k] == runs[..k];
  }

  /** All runs are done: what the patch is from here on. */
  lemma {:induction false} AtEnd(d: Delta, k: nat, src: seq<Byte>, reverse: bool)
    requires k == |d.runs| && RunsOk(d.runs, MAX_SIZE - 1) && |src| < MAX_SIZE
    ensures d.runs[..k] == d.runs && (Fits(d, src, reverse) <==> Dropped(d, reverse) <= |src|)
    ensures d.tail == None ==> Dropped(d, reverse) == 0
    ensures d.tail != None ==>
              Dropped(d, reverse) == if reverse == d.tail.Grown? then |d.tail.bytes| else 0
    ensures Fits(d, src, reverse) ==>
              var e := End(d.runs);
              var to := |src| - Dropped(d, reverse);
              Patch(d, src, reverse) == PatchRuns(d.runs, src, reverse) + Copied(src, e, if e < to then to else e)
                + if d.tail == None || reverse == d.tail.Grown? then [] else d.tail.bytes
  {
    assert d.runs[..k] == d.runs;
    if Fits(d, src, reverse) {
      RestCopied(src, End(d.runs), |src| - Dropped(d, reverse));
    }
  }

  lemma RestCopied(src: seq<Byte>, e: nat, to: nat)
    requires to <= |src|
    ensures Rest(src, e, to) == Copied(src, e, if e < to then to else e)
  {
  }

  /** Applies an encoded delta in either direction. It fails where the source's loop would not end. */
  method ApplyPatch(src: seq<Byte>, buf: seq<Byte>, isReverse: bool, ghost d: Delta) returns (ok: bool, out: seq<Byte>)
    requires buf == Encode(d) && RunsOk(d.runs, MAX_SIZE - 1) && |src| < MAX_SIZE
    ensures ok == Fits(d, src, isReverse)
    ensures ok ==> out == Patch(d, src, isReverse)
  {
    hide Encode, EncodeRuns, EncodeRun, RunsOk, PatchRuns, Patch, Fits, End, Copied, Dropped;
    ok, out := true, [];
    var cnt, cursor := 0, 0;
    ghost var k := 0;
    AtStart(d, src, isReverse);
    while cnt < |buf|
      invariant k <= |d.runs| && RunsOk(d.runs[..k], MAX_SIZE - 1) && cnt <= |buf| && ok
      invariant cnt == |EncodeRuns(d.runs[..k])| && cursor == End(d.runs[..k])
      invariant out == PatchRuns(d.runs[..k], src, isReverse)
      decreases |d.runs| - k
    {
      FlagAt(d, k);
      var flag := buf[cnt];
      if flag == 3 {
        AtEnd(d, k, src, isReverse);
        out, cursor := CopyUpTo(src, cursor, |src|, out);
        return;
      } else if flag == 0 {
        RunAt(d, k);
        RunsFit(d.runs, k, MAX_SIZE - 1);
        AfterRun(d.runs, k, src, isReverse);
        out, cnt, cursor := ApplyRun(src, buf, cnt, cursor, isReverse, d.runs[k], out);
        k := k + 1;
      } else if flag == 1 || flag == 2 {
        AtEnd(d, k, src, isReverse);
        var deltaLen := |buf| - (cnt + 1);
        if isReverse == (flag == 2) {
          // The last bytes disappear; the source subtracts without a sign.
          if deltaLen > |src| {
            return false, out;
          }
          out, cursor := CopyUpTo(src, cursor, |src| - deltaLen, out);
        } else {
          out, cursor := CopyUpTo(src, cursor, |src|, out);
          out := out + buf[cnt + 1..];
        }
        return;
      }
    }
    AllRead(d, k);
    AtEnd(d, k, src, isReverse);
    out, cursor := CopyUpTo(src, cursor, |src|, out);
  }
}
