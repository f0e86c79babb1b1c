// Scatter/gather for an AHCI command: each pass copies part of the PRDT into a bounded I/O vector.
module AhciScatter {
  import opened Powers

  const IOV_MAX := 33

  // A PRDT entry or a vector entry: a guest address and a length.
  datatype Segment = Segment(base: nat, len: nat)

  /** A request to the block backend: where on the disk, how many bytes, and the guest memory they move to or from. */
  datatype BlockReq = BlockReq(offset: nat, resid: nat, iov: seq<Segment>)

  predicate Entries(s: seq<Segment>) {
    forall i :: 0 <= i < |s| ==> 0 < s[i].len
  }

  function Min(a: int, b: int): int {
    if a < b then a else b
  }

  function Max(a: int, b: int): int {
    if a < b then b else a
  }

  // The addresses of a contiguous block.
  ghost function Run(base: nat, len: nat): (r: seq<nat>)
    ensures |r| == len
  {
    seq(len, k requires 0 <= k < len => base + k)
  }

  // Every byte address a list of segments names, in order.
  ghost function Bytes(s: seq<Segment>): seq<nat> {
    if s == [] then [] else Bytes(s[..|s| - 1]) + Run(s[|s| - 1].base, s[|s| - 1].len)
  }

  // Bytes in the first n segments.
  function Total(s: seq<Segment>, n: nat): nat
    requires n <= |s|
  {
    if n == 0 then 0 else Total(s, n - 1) + s[n - 1].len
  }

  lemma {:induction false} BytesLength(s: seq<Segment>, n: nat)
    requires n <= |s|
    ensures |Bytes(s[..n])| == Total(s, n)
  {
    if n > 0 {
      BytesLength(s, n - 1);
      BytesStep(s, n - 1);
    }
  }

  lemma BytesStep(s: seq<Segment>, n: nat)
    requires n < |s|
    ensures Bytes(s[..n + 1]) == Bytes(s[..n]) + Run(s[n].base, s[n].len)
  {
    assert s[..n + 1][..n] == s[..n];
  }

  lemma {:induction false} TotalGrows(s: seq<Segment>, n: nat, m: nat)
    requires n <= m <= |s| && Entries(s)
    ensures Total(s, n) + (m - n) <= Total(s, m)
    decreases m
  {
    if n < m {
      TotalGrows(s, n, m - 1);
    }
  }

  // ---- the vector for a stretch of the table ----

  // What a segment of 'len' bytes at byte 't' of the table contributes to bytes done..end.
  function Clip(base: nat, t: nat, len: nat, done: nat, end: nat): seq<Segment> {
    var lo, hi := Max(done, t), Min(end, t + len);
    if lo < hi then [Segment(base + (lo - t), hi - lo)] else []
  }

  function Piece(s: seq<Segment>, i: nat, done: nat, end: nat): seq<Segment>
    requires i < |s|
  {
    Clip(s[i].base, Total(s, i), s[i].len, done, end)
  }

  // The part of bytes done..end that lies in the first n entries, entry by entry.
  function Vector(s: seq<Segment>, n: nat, done: nat, end: nat): seq<Segment>
    requires n <= |s|
  {
    if n == 0 then [] else Vector(s, n - 1, done, end) + Piece(s, n - 1, done, end)
  }

  // Entries at or before 'done' contribute nothing.
  lemma {:induction false} VectorBefore(s: seq<Segment>, n: nat, done: nat, end: nat)
    requires n <= |s| && Entries(s) && Total(s, n) <= done
    ensures Vector(s, n, done, end) == []
  {
    if n > 0 {
      VectorBefore(s, n - 1, done, end);
    }
  }

  // Entries at or behind 'end' contribute nothing.
  lemma {:induction false} VectorBehind(s: seq<Segment>, n: nat, m: nat, done: nat, end: nat)
    requires n <= m <= |s| && Entries(s) && end <= Total(s, n)
    ensures Vector(s, m, done, end) == Vector(s, n, done, end)
    decreases m
  {
    if n < m {
      VectorBehind(s, n, m - 1, done, end);
      TotalGrows(s, n, m - 1);
    }
  }

  // Where the entries end, so does the stretch.
  lemma {:induction false} VectorClipped(s: seq<Segment>, n: nat, done: nat, end: nat, end': nat)
    requires n <= |s| && Entries(s) && Total(s, n) <= end && Total(s, n) <= end'
    ensures Vector(s, n, done, end) == Vector(s, n, done, end')
  {
    if n > 0 {
      VectorClipped(s, n - 1, done, end, end');
    }
  }

  // One entry contributes at most one segment.
  lemma {:induction false} VectorShort(s: seq<Segment>, f: nat, n: nat, done: nat, end: nat)
    requires f <= n <= |s| && Entries(s) && Total(s, f) <= done
    ensures |Vector(s, n, done, end)| <= n - f
    decreases n
  {
    if f < n {
      VectorShort(s, f, n - 1, done, end);
    } else {
      VectorBefore(s, n, done, end);
    }
  }

  lemma BytesAppend(v: seq<Segment>, p: Segment)
    ensures Bytes(v + [p]) == Bytes(v) + Run(p.base, p.len)
  {
    assert (v + [p])[..|v|] == v;
  }

  // A vector that reaches into entry i ends with a part of it.
  lemma LastPiece(s: seq<Segment>, i: nat, done: nat, end: nat)
    requires i < |s| && done <= end && Max(done, Total(s, i)) < end <= Total(s, i) + s[i].len
    ensures var t := Total(s, i); var lo := Max(done, t);
      Vector(s, i + 1, done, end) == Vector(s, i, done, end) + [Segment(s[i].base + (lo - t), end - lo)]
  {}

  // Slices of a sequence that continues with a block.
  lemma SliceBefore(a: seq<nat>, r: seq<nat>, x: nat, y: nat)
    requires x <= y <= |a|
    ensures (a + r)[x..y] == a[x..y]
  {}

  lemma SliceBehind(a: seq<nat>, base: nat, len: nat, x: nat, y: nat)
    requires |a| <= x <= y <= |a| + len
    ensures (a + Run(base, len))[x..y] == Run(base + (x - |a|), y - x)
  {}

  lemma SliceAcross(a: seq<nat>, base: nat, len: nat, x: nat, y: nat)
    requires x <= |a| <= y <= |a| + len
    ensures (a + Run(base, len))[x..y] == a[x..] + Run(base, y - |a|)
  {}

  // The last step of VectorBytes, for a stretch inside entry i.
  lemma InsideEntry(s: seq<Segment>, i: nat, done: nat, end: nat, a: seq<nat>)
    requires i < |s| && Entries(s) && |a| == Total(s, i) <= done < end <= Total(s, i) + s[i].len
    ensures Bytes(Vector(s, i + 1, done, end)) == (a + Run(s[i].base, s[i].len))[done..end]
  {
    LastPiece(s, i, done, end);
    VectorBefore(s, i, done, end);
    BytesAppend([], Segment(s[i].base + (done - Total(s, i)), end - done));
    SliceBehind(a, s[i].base, s[i].len, done, end);
  }

  // The same for a stretch that reaches into entry i.
  lemma IntoEntry(s: seq<Segment>, i: nat, done: nat, end: nat, a: seq<nat>)
    requires i < |s| && Entries(s) && done < |a| == Total(s, i) < end <= Total(s, i) + s[i].len
    requires Bytes(Vector(s, i, done, |a|)) == a[done..]
    ensures Bytes(Vector(s, i + 1, done, end)) == (a + Run(s[i].base, s[i].len))[done..end]
  {
    LastPiece(s, i, done, end);
    VectorClipped(s, i, done, end, |a|);
    BytesAppend(Vector(s, i, done, |a|), Segment(s[i].base, end - |a|));
    SliceAcross(a, s[i].base, s[i].len, done, end);
  }

  /** The vector names bytes done..end of the table, in order. */
  lemma {:induction false} VectorBytes(s: seq<Segment>, n: nat, done: nat, end: nat)
    requires n <= |s| && Entries(s) && done <= end <= Total(s, n)
    ensures |Bytes(s[..n])| == Total(s, n) && Bytes(Vector(s, n, done, end)) == Bytes(s[..n])[done..end]
  {
    BytesLength(s, n);
    if done == end {
      VectorEmpty(s, n, done);
    } else {
      var i := n - 1;
      var t, a := Total(s, i), Bytes(s[..i]);
      BytesLength(s, i);
      BytesStep(s, i);
      if end <= t {
        VectorBytes(s, i, done, end);
        VectorBehind(s, i, n, done, end);
        SliceBefore(a, Run(s[i].base, s[i].len), done, end);
      } else if t <= done {
        InsideEntry(s, i, done, end, a);
      } else {
        VectorBytes(s, i, done, t);
        IntoEntry(s, i, done, end, a);
      }
    }
  }

  // ---- how far one pass gets ----

  // The first entry, from n on, that holds byte 'done'; the end of the table if none does.
  function FirstFrom(s: seq<Segment>, done: nat, n: nat): (f: nat)
    requires n <= |s|
    ensures n <= f <= |s|
    decreases |s| - n
  {
    if n == |s| || done < Total(s, n + 1) then n else FirstFrom(s, done, n + 1)
  }

  function First(s: seq<Segment>, done: nat): nat {
    FirstFrom(s, done, 0)
  }

  lemma {:induction false} FirstSkips(s: seq<Segment>, done: nat, n: nat, m: nat)
    requires n <= m <= |s| && Entries(s) && Total(s, m) <= done
    ensures FirstFrom(s, done, n) == FirstFrom(s, done, m)
    decreases m - n
  {
    if n < m {
      TotalGrows(s, n + 1, m);
      FirstSkips(s, done, n + 1, m);
    }
  }

  lemma {:induction false} FirstHolds(s: seq<Segment>, done: nat, n: nat)
    requires n <= |s| && Total(s, n) <= done
    ensures var f := FirstFrom(s, done, n); Total(s, f) <= done && (f < |s| ==> done < Total(s, f + 1))
    decreases |s| - n
  {
    if n < |s| && Total(s, n + 1) <= done {
      FirstHolds(s, done, n + 1);
    }
  }

  // Where the copy loop ends.
  function Reach(s: seq<Segment>, done: nat, len: nat): nat {
    var f := First(s, done);
    if len <= done || f == |s| then done else Min(len, Total(s, Min(f + IOV_MAX, |s|)))
  }

  // The vector has no room left when the loop ends.
  predicate Full(s: seq<Segment>, done: nat, len: nat) {
    var f := First(s, done);
    done < len && f + IOV_MAX <= |s| && Total(s, f + IOV_MAX - 1) < len
  }

  // The assertion that something is left after rounding to whole sectors holds.
  predicate PassOk(s: seq<Segment>, done: nat, len: nat, sectsz: nat) {
    Full(s, done, len) ==> sectsz <= Reach(s, done, len) - done
  }

  // Where the pass ends: a full vector is cut to whole sectors.
  function PassEnd(s: seq<Segment>, done: nat, len: nat, sectsz: nat): nat
    requires 0 < sectsz
  {
    var reach := Reach(s, done, len);
    if Full(s, done, len) && done <= reach then reach - (reach - done) % sectsz else reach
  }

  // Another pass follows.
  predicate PassMore(s: seq<Segment>, done: nat, len: nat, sectsz: nat)
    requires 0 < sectsz
  {
    PassEnd(s, done, len, sectsz) < len && First(s, done) + IOV_MAX < |s|
  }

  /** The request of the pass that starts at byte 'done' of a transfer at 'lba' on the disk. */
  function PassReq(s: seq<Segment>, lba: nat, done: nat, len: nat, sectsz: nat): BlockReq
    requires 0 < sectsz
  {
    var end := PassEnd(s, done, len, sectsz);
    BlockReq(lba + done, if done <= end then end - done else 0, Vector(s, |s|, done, end))
  }

  // Bounds on the end of a pass.
  lemma ReachBounds(s: seq<Segment>, done: nat, len: nat)
    requires Entries(s)
    ensures var f, r := First(s, done), Reach(s, done, len);
      && done <= r && Total(s, f) <= done
      && (len <= done || f == |s| ==> r == done)
      && (done < len && f < |s| ==> done < r <= len && r <= Total(s, Min(f + IOV_MAX, |s|)))
  {
    FirstHolds(s, done, 0);
    var f := First(s, done);
    if f < |s| {
      TotalGrows(s, f + 1, Min(f + IOV_MAX, |s|));
    }
  }

  lemma Rounded(todo: nat, sectsz: nat)
    requires 0 < sectsz
    ensures 0 <= todo - todo % sectsz <= todo && (sectsz <= todo ==> 0 < todo - todo % sectsz)
  {}

  lemma EndBounds(s: seq<Segment>, done: nat, len: nat, sectsz: nat)
    requires Entries(s) && 0 < sectsz
    ensures done <= PassEnd(s, done, len, sectsz) <= Reach(s, done, len)
    ensures PassOk(s, done, len, sectsz) && done < len && First(s, done) < |s| ==> done < PassEnd(s, done, len, sectsz)
    ensures PassMore(s, done, len, sectsz) ==> Full(s, done, len)
  {
    ReachBounds(s, done, len);
    Rounded(Reach(s, done, len) - done, sectsz);
    var f := First(s, done);
    if f + IOV_MAX <= |s| {
      TotalGrows(s, f + IOV_MAX - 1, f + IOV_MAX);
    }
  }

  /** A pass hands the backend at most 33 segments, which name exactly the next bytes of the table, in order. */
  lemma PassMoves(s: seq<Segment>, lba: nat, done: nat, len: nat, sectsz: nat)
    requires Entries(s) && 0 < sectsz
    ensures var end, q := PassEnd(s, done, len, sectsz), PassReq(s, lba, done, len, sectsz);
      && |q.iov| <= IOV_MAX && q.offset == lba + done && done + q.resid == end
      && (if end == done then q.iov == [] else end <= |Bytes(s)| && Bytes(q.iov) == Bytes(s)[done..end])
  {
    var f, end := First(s, done), PassEnd(s, done, len, sectsz);
    var g := Min(f + IOV_MAX, |s|);
    ReachBounds(s, done, len);
    EndBounds(s, done, len, sectsz);
    assert s[..|s|] == s;
    if end == done {
      VectorEmpty(s, |s|, done);
    } else {
      VectorBehind(s, g, |s|, done, end);
      VectorShort(s, f, g, done, end);
      TotalGrows(s, g, |s|);
      VectorBytes(s, |s|, done, end);
    }
  }

  lemma {:induction false} VectorEmpty(s: seq<Segment>, n: nat, done: nat)
    requires n <= |s|
    ensures Vector(s, n, done, done) == []
  {
    if n > 0 {
      VectorEmpty(s, n - 1, done);
    }
  }

  // ---- the loops that build the vector ----

  // How far the copy loop got.
  ghost predicate Copied(s: seq<Segment>, done: nat, len: nat, i: nat, j: nat, todo: nat) {
    && 0 < j <= i <= |s| && j <= IOV_MAX && Total(s, i - j) <= done < Total(s, i - j + 1)
    && done + todo == Min(len, Total(s, i)) && Total(s, i - 1) < len
  }

  lemma ExitReach(s: seq<Segment>, done: nat, len: nat, i: nat, j: nat, todo: nat)
    requires Entries(s) && done < len && Copied(s, done, len, i, j, todo)
    requires done + todo == len || j == IOV_MAX || i == |s|
    ensures First(s, done) == i - j && done + todo == Reach(s, done, len) && (j == IOV_MAX <==> Full(s, done, len))
  {
    var f := i - j;
    FirstSkips(s, done, 0, f);
    if f + IOV_MAX <= |s| {
      TotalGrows(s, i, f + IOV_MAX);
      if j < IOV_MAX {
        TotalGrows(s, i, f + IOV_MAX - 1);
      }
    } else {
      TotalGrows(s, i, |s|);
    }
  }

  lemma ExitVector(s: seq<Segment>, done: nat, len: nat, i: nat, todo: nat)
    requires i <= |s| && Entries(s) && done + todo == Min(len, Total(s, i))
    ensures Vector(s, i, done, len) == Vector(s, |s|, done, done + todo)
  {
    if Total(s, i) <= len {
      VectorClipped(s, i, done, len, done + todo);
    }
    VectorBehind(s, i, |s|, done, done + todo);
  }

  // Nothing of the table is left.
  lemma ExitEmpty(s: seq<Segment>, done: nat, len: nat)
    requires Entries(s) && Total(s, |s|) <= done
    ensures Reach(s, done, len) == done && !Full(s, done, len)
    ensures Vector(s, |s|, done, len) == [] == Vector(s, |s|, done, done)
  {
    FirstSkips(s, done, 0, |s|);
    VectorBefore(s, |s|, done, len);
    VectorEmpty(s, |s|, done);
  }

  // What the loop does with an entry.
  lemma NextPiece(base: nat, t: nat, len: nat, done: nat, end: nat, skip: nat)
    requires done < end && t < end && skip == Max(0, done - t)
    ensures len <= skip ==> Clip(base, t, len, done, end) == []
    ensures len > skip ==> Clip(base, t, len, done, end) == [Segment(base + skip, Min(len - skip, end - Max(done, t)))]
  {}

  // The copy loop before entry i.
  ghost predicate Copying(s: seq<Segment>, done: nat, len: nat, i: nat, j: nat, skip: int, todo: int) {
    && i <= |s| && done < len
    && if j == 0 then todo == 0 && 0 <= skip == done - Total(s, i)
       else skip == 0 && 0 <= todo && Copied(s, done, len, i, j, todo)
  }

  // Before entry i nothing was copied, or everything up to it.
  lemma CopyingAt(s: seq<Segment>, done: nat, len: nat, i: nat, j: nat, skip: nat, todo: nat)
    requires Entries(s) && Copying(s, done, len, i, j, skip, todo) && done + todo < len
    ensures Total(s, i) < len && skip == Max(0, done - Total(s, i)) && Max(done, Total(s, i)) == done + todo
  {}

  lemma CopyingSkips(s: seq<Segment>, done: nat, len: nat, i: nat, j: nat, skip: nat, todo: nat)
    requires Copying(s, done, len, i, j, skip, todo) && i < |s| && 0 < s[i].len <= skip
    ensures Copying(s, done, len, i + 1, j, skip - s[i].len, todo)
  {}

  lemma CopyingTakes(s: seq<Segment>, done: nat, len: nat, i: nat, j: nat, skip: nat, todo: nat)
    requires Copying(s, done, len, i, j, skip, todo) && i < |s| && skip < s[i].len && j < IOV_MAX && done + todo < len
    ensures Copying(s, done, len, i + 1, j + 1, 0, todo + Min(s[i].len - skip, len - done - todo))
  {
    assert Total(s, i + 1) == Total(s, i) + s[i].len;
  }

  // The store of one turn of the loop.
  method Put(iov: array<Segment>, prdt: seq<Segment>, i: nat, j: nat, seg: Segment, ghost done: nat, ghost len: nat)
    requires j < iov.Length && i < |prdt| && iov[..j] == Vector(prdt, i, done, len)
    requires Piece(prdt, i, done, len) == [seg]
    modifies iov
    ensures iov[..j + 1] == Vector(prdt, i + 1, done, len)
  {
    iov[j] := seg;
    assert iov[..j + 1] == iov[..j] + [seg];
  }

  // The end of the copy loop.
  lemma CopyingDone(s: seq<Segment>, done: nat, len: nat, i: nat, j: nat, skip: int, todo: nat)
    requires Entries(s) && Copying(s, done, len, i, j, skip, todo)
    requires done + todo == len || j == IOV_MAX || i == |s|
    ensures done + todo == Reach(s, done, len) && (j == IOV_MAX <==> Full(s, done, len))
    ensures Vector(s, i, done, len) == Vector(s, |s|, done, done + todo)
    ensures j == IOV_MAX ==> i == First(s, done) + IOV_MAX
  {
    if j == 0 {
      ExitEmpty(s, done, len);
    } else {
      ExitReach(s, done, len, i, j, todo);
      ExitVector(s, done, len, i, todo);
    }
  }

  // One turn of the copy loop.
  method CopyEntry(iov: array<Segment>, prdt: seq<Segment>, i: nat, j: nat, skip: nat, left: nat,
                   ghost done: nat, ghost len: nat, ghost todo: nat)
    returns (j': nat, skip': nat, took: nat)
    requires iov.Length == IOV_MAX && Entries(prdt) && i < |prdt| && j < IOV_MAX && 0 < left == len - done - todo
    requires iov[..j] == Vector(prdt, i, done, len) && Copying(prdt, done, len, i, j, skip, todo)
    modifies iov
    ensures j' <= IOV_MAX && took <= left
    ensures iov[..j'] == Vector(prdt, i + 1, done, len) && Copying(prdt, done, len, i + 1, j', skip', todo + took)
  {
    var dbcsz := prdt[i].len;
    CopyingAt(prdt, done, len, i, j, skip, todo);
    NextPiece(prdt[i].base, Total(prdt, i), prdt[i].len, done, len, skip);
    if dbcsz <= skip {
      CopyingSkips(prdt, done, len, i, j, skip, todo);
      return j, skip - dbcsz, 0;
    }
    CopyingTakes(prdt, done, len, i, j, skip, todo);
    dbcsz := dbcsz - skip;
    if dbcsz > left {
      dbcsz := left;
    }
    Put(iov, prdt, i, j, Segment(prdt[i].base + skip, dbcsz), done, len);
    return j + 1, 0, dbcsz;
  }

  // The copy loop.
  method CopyAll(iov: array<Segment>, prdt: seq<Segment>, done: nat, len: nat)
    returns (i: nat, j: nat, ghost skip: nat, todo: nat)
    requires iov.Length == IOV_MAX && Entries(prdt) && done < len
    modifies iov
    ensures i <= |prdt| && j <= IOV_MAX && (done + todo == len || j == IOV_MAX || i == |prdt|)
    ensures iov[..j] == Vector(prdt, i, done, len) && Copying(prdt, done, len, i, j, skip, todo)
  {
    todo, i, j := 0, 0, 0;
    var rest, left := done, len - done;
    while i < |prdt| && j < IOV_MAX && left > 0
      invariant i <= |prdt| && j <= IOV_MAX && 0 <= left == len - done - todo
      invariant iov[..j] == Vector(prdt, i, done, len) && Copying(prdt, done, len, i, j, rest, todo)
      decreases |prdt| - i
    {
      var took;
      j, rest, took := CopyEntry(iov, prdt, i, j, rest, left, done, len, todo);
      i, todo, left := i + 1, todo + took, left - took;
    }
    skip := rest;
  }

  // Copies the part of the table between 'done' and 'len' into the vector, as far as the vector goes.
  method FillIov(iov: array<Segment>, prdt: seq<Segment>, done: nat, len: nat)
    returns (i: nat, j: nat, todo: nat)
    requires iov.Length == IOV_MAX && Entries(prdt)
    modifies iov
    ensures j <= IOV_MAX && done + todo == Reach(prdt, done, len) && (j == IOV_MAX <==> Full(prdt, done, len))
    ensures iov[..j] == Vector(prdt, |prdt|, done, done + todo)
    ensures j == IOV_MAX ==> i == First(prdt, done) + IOV_MAX
    ensures j < IOV_MAX && done + todo < len ==> i == |prdt|
  {
    todo, i, j := 0, 0, 0;
    if done < len {
      ghost var skip;
      i, j, skip, todo := CopyAll(iov, prdt, done, len);
      CopyingDone(prdt, done, len, i, j, skip, todo);
    } else {
      VectorEmpty(prdt, |prdt|, done);
    }
  }

  // A vector with 'extra' bytes taken off its end.
  function Cut(v: seq<Segment>, extra: nat): seq<Segment> {
    if extra == 0 || v == [] then v
    else
      var n := |v| - 1;
      if v[n].len > extra then v[..n] + [v[n].(len := v[n].len - extra)] else Cut(v[..n], extra - v[n].len)
  }

  lemma CutLast(v: seq<Segment>, p: Segment, extra: nat)
    requires 0 < extra
    ensures p.len > extra ==> Cut(v + [p], extra) == v + [Segment(p.base, p.len - extra)]
    ensures p.len <= extra ==> Cut(v + [p], extra) == Cut(v, extra - p.len)
  {
    assert (v + [p])[..|v|] == v;
  }

  // Cutting inside entry i.
  lemma CutInside(s: seq<Segment>, i: nat, done: nat, end: nat, extra: nat, lo: nat)
    requires i < |s| && Entries(s) && 0 < extra && end <= Total(s, i) + s[i].len
    requires lo == Max(done, Total(s, i)) < end - extra
    ensures Cut(Vector(s, i + 1, done, end), extra) == Vector(s, i + 1, done, end - extra)
  {
    var v, b := Vector(s, i, done, end), s[i].base + (lo - Total(s, i));
    assert Vector(s, i + 1, done, end) == v + [Segment(b, end - lo)] by {
      LastPiece(s, i, done, end);
    }
    assert Vector(s, i + 1, done, end - extra) == v + [Segment(b, end - extra - lo)] by {
      LastPiece(s, i, done, end - extra);
      VectorClipped(s, i, done, end, end - extra);
    }
    CutLast(v, Segment(b, end - lo), extra);
  }

  // Cutting all of entry i.
  lemma CutWhole(s: seq<Segment>, i: nat, done: nat, end: nat, extra: nat)
    requires i < |s| && done < Total(s, i) < end <= Total(s, i) + s[i].len && end - Total(s, i) <= extra
    ensures Cut(Vector(s, i + 1, done, end), extra) == Cut(Vector(s, i, done, end), extra - (end - Total(s, i)))
  {
    LastPiece(s, i, done, end);
    CutLast(Vector(s, i, done, end), Segment(s[i].base, end - Total(s, i)), extra);
  }

  lemma CutAcross(s: seq<Segment>, i: nat, done: nat, end: nat, extra: nat)
    requires i < |s| && Entries(s) && done < end - extra <= Total(s, i) < end <= Total(s, i) + s[i].len
    requires var t := Total(s, i);
      Cut(Vector(s, i, done, t), extra - (end - t)) == Vector(s, i, done, end - extra)
    ensures Cut(Vector(s, i + 1, done, end), extra) == Vector(s, i + 1, done, end - extra)
  {
    CutWhole(s, i, done, end, extra);
    VectorClipped(s, i, done, end, Total(s, i));
    VectorBehind(s, i, i + 1, done, end - extra);
  }

  /** Cutting the vector is the same as stopping earlier. */
  lemma {:induction false} CutVector(s: seq<Segment>, n: nat, done: nat, end: nat, extra: nat)
    requires n <= |s| && Entries(s) && done < end - extra && end <= Total(s, n)
    ensures Cut(Vector(s, n, done, end), extra) == Vector(s, n, done, end - extra)
  {
    if n > 0 && extra > 0 {
      var i := n - 1;
      if end <= Total(s, i) {
        CutVector(s, i, done, end, extra);
        CutBelow(s, i, done, end, extra);
      } else if Total(s, i) < end - extra {
        CutInside(s, i, done, end, extra, Max(done, Total(s, i)));
      } else {
        CutVector(s, i, done, Total(s, i), extra - (end - Total(s, i)));
        CutAcross(s, i, done, end, extra);
      }
    }
  }

  // Cutting below entry i.
  lemma CutBelow(s: seq<Segment>, i: nat, done: nat, end: nat, extra: nat)
    requires i < |s| && Entries(s) && extra <= end <= Total(s, i)
    requires Cut(Vector(s, i, done, end), extra) == Vector(s, i, done, end - extra)
    ensures Cut(Vector(s, i + 1, done, end), extra) == Vector(s, i + 1, done, end - extra)
  {
    VectorBehind(s, i, i + 1, done, end);
    VectorBehind(s, i, i + 1, done, end - extra);
  }

  // Takes 'surplus' bytes off the end of the vector.
  method TrimIov(iov: array<Segment>, count: nat, surplus: nat) returns (j: nat)
    requires iov.Length == IOV_MAX && count <= IOV_MAX && surplus < Total(iov[..count], count)
    modifies iov
    ensures j <= count && iov[..j] == Cut(old(iov[..count]), surplus)
  {
    j := count;
    var extra := surplus;
    ghost var all := iov[..count];
    while extra > 0
      invariant 0 <= extra && j <= count && iov[..j] == all[..j] && extra < Total(all, j)
      invariant Cut(all[..j], extra) == Cut(all, surplus)
      decreases j
    {
      assert iov[j - 1] == all[j - 1] && all[..j][..j - 1] == all[..j - 1];
      if iov[j - 1].len > extra {
        iov[j - 1] := iov[j - 1].(len := iov[j - 1].len - extra);
        break;
      }
      extra := extra - iov[j - 1].len;
      j := j - 1;
    }
  }

  lemma {:induction false} VectorTotal(s: seq<Segment>, n: nat, done: nat, end: nat)
    requires n <= |s| && Entries(s) && done <= end <= Total(s, n)
    ensures var v := Vector(s, n, done, end); Total(v, |v|) == end - done
  {
    VectorBytes(s, n, done, end);
    var v := Vector(s, n, done, end);
    BytesLength(v, |v|);
    assert v[..|v|] == v;
  }

  // What cutting a stretch of the table to its first 'todo' bytes leaves.
  lemma CutStretch(s: seq<Segment>, done: nat, total: nat, extra: nat)
    requires Entries(s) && extra < total && done + total <= Total(s, |s|)
    ensures var v := Vector(s, |s|, done, done + total);
      Total(v, |v|) == total && Cut(v, extra) == Vector(s, |s|, done, done + (total - extra))
  {
    VectorTotal(s, |s|, done, done + total);
    CutVector(s, |s|, done, done + total, extra);
  }

  // Shortens a full vector to whole sectors; 'ok' is the source's assertion that some are left.
  method CutToSectors(iov: array<Segment>, prdt: seq<Segment>, count: nat, done: nat, total: nat, sectsz: nat)
    returns (ok: bool, j: nat, todo: nat)
    requires iov.Length == IOV_MAX && count <= IOV_MAX && 0 < sectsz && Entries(prdt)
    requires 0 < total && done + total <= Total(prdt, |prdt|)
    requires iov[..count] == Vector(prdt, |prdt|, done, done + total)
    modifies iov
    ensures ok <==> sectsz <= total
    ensures ok ==> j <= count && todo == total - total % sectsz
    ensures ok ==> iov[..j] == Vector(prdt, |prdt|, done, done + todo)
  {
    var extra := Surplus(total, sectsz);
    j, todo := count, total - extra;
    ok := todo > 0;
    if ok {
      CutStretch(prdt, done, total, extra);
      j := TrimIov(iov, j, extra);
    }
  }

  // The bytes past the last whole sector.
  method Surplus(total: nat, sectsz: nat) returns (extra: nat)
    requires 0 < sectsz
    ensures extra == total % sectsz && extra <= total && (extra < total <==> sectsz <= total)
  {
    extra := total % sectsz;
    Rounded(total, sectsz);
    SmallRemainder(total, sectsz);
  }

  lemma SmallRemainder(todo: nat, sectsz: nat)
    requires 0 < sectsz
    ensures todo < sectsz ==> todo % sectsz == todo
  {
    if todo < sectsz {
      Remainder(0, todo, sectsz);
    }
  }

  // A full vector holds some bytes, all of the table.
  lemma FullFits(s: seq<Segment>, done: nat, len: nat)
    requires Entries(s) && Full(s, done, len)
    ensures done < Reach(s, done, len) <= Total(s, |s|)
  {
    ReachBounds(s, done, len);
    TotalGrows(s, First(s, done) + IOV_MAX, |s|);
  }

  /** One pass over the table, from any point of it: exactly the pass specified, or its assertion fails. */
  method BuildIov(iov: array<Segment>, prdt: seq<Segment>, done: nat, len: nat, sectsz: nat)
    returns (ok: bool, iovcnt: nat, resid: nat, done': nat, more: bool)
    requires iov.Length == IOV_MAX && Entries(prdt) && 0 < sectsz
    modifies iov
    ensures ok <==> PassOk(prdt, done, len, sectsz)
    ensures ok ==> done' == PassEnd(prdt, done, len, sectsz) == done + resid && iovcnt <= IOV_MAX
    ensures ok ==> iov[..iovcnt] == Vector(prdt, |prdt|, done, done')
    ensures ok ==> more == PassMore(prdt, done, len, sectsz)
  {
    var i;
    i, iovcnt, resid := FillIov(iov, prdt, done, len);
    ok := true;
    if iovcnt == IOV_MAX {
      FullFits(prdt, done, len);
      ok, iovcnt, resid := CutToSectors(iov, prdt, iovcnt, done, resid, sectsz);
    }
    done' := done + resid;
    more := done' < len && i < |prdt|;
    EndBounds(prdt, done, len, sectsz);
  }

  /** One pass of a command, in a vector of its own. */
  method OnePass(prdt: seq<Segment>, lba: nat, done: nat, len: nat, sectsz: nat)
    returns (ok: bool, breq: BlockReq, done': nat, more: bool)
    requires Entries(prdt) && 0 < sectsz
    ensures ok <==> PassOk(prdt, done, len, sectsz)
    ensures ok ==> breq == PassReq(prdt, lba, done, len, sectsz)
    ensures ok ==> done' == PassEnd(prdt, done, len, sectsz) && more == PassMore(prdt, done, len, sectsz)
  {
    var iov := new Segment[IOV_MAX];
    var iovcnt, resid;
    ok, iovcnt, resid, done', more := BuildIov(iov, prdt, done, len, sectsz);
    breq := BlockReq(lba + done, resid, if ok then iov[..iovcnt] else []);
  }

  // ---- when a pass is possible ----

  // Any 32 consecutive entries hold at least one sector.
  ghost predicate Dense(s: seq<Segment>, sectsz: nat) {
    forall i, j :: 0 <= i && j == i + 32 && j <= |s| ==> Total(s, j) - Total(s, i) >= sectsz
  }

  /** Such a table never starves a pass that ends on a sector, so the assertion holds. */
  lemma DensePassOk(s: seq<Segment>, done: nat, len: nat, sectsz: nat)
    requires Entries(s) && Dense(s, sectsz) && 0 < sectsz && done % sectsz == 0 && len % sectsz == 0
    ensures PassOk(s, done, len, sectsz)
  {
    if Full(s, done, len) {
      var f := First(s, done);
      FirstHolds(s, done, 0);
      assert Total(s, f + 33) - Total(s, f + 1) >= sectsz;
      WholeRest(done, len, sectsz);
    }
  }

  // What is left of an aligned transfer is whole sectors.
  lemma WholeRest(done: nat, len: nat, sectsz: nat)
    requires 0 < sectsz && done < len && done % sectsz == 0 && len % sectsz == 0
    ensures (len - done) % sectsz == 0 && sectsz <= len - done
  {
    var d, l := done / sectsz, len / sectsz;
    assert done == d * sectsz && len == l * sectsz;
    assert len - done == (l - d) * sectsz;
    PositiveMultiple(l - d, sectsz);
    MultipleDivides(l - d, sectsz);
  }

  lemma {:induction false} TotalOnes(s: seq<Segment>, n: nat)
    requires n <= |s| && forall i :: 0 <= i < |s| ==> s[i].len == 1
    ensures Total(s, n) == n
  {
    if n > 0 {
      TotalOnes(s, n - 1);
    }
  }

  /** A table of 34 one-byte entries meets the assertion in the first pass of a one-sector transfer. */
  lemma SparseTableFails()
    ensures !PassOk(seq(34, _ => Segment(0, 1)), 0, 512, 512)
  {
    var s := seq(34, _ => Segment(0, 1));
    TotalOnes(s, 1);
    TotalOnes(s, 32);
    TotalOnes(s, 33);
    assert First(s, 0) == 0;
  }

  // ---- a chain of passes ----

  // Where a transfer stands after n passes.
  function DoneAt(s: seq<Segment>, len: nat, sectsz: nat, n: nat): nat
    requires 0 < sectsz
  {
    if n == 0 then 0 else PassEnd(s, DoneAt(s, len, sectsz, n - 1), len, sectsz)
  }

  // The requests of the first n passes.
  function Requests(s: seq<Segment>, lba: nat, len: nat, sectsz: nat, n: nat): (q: seq<BlockReq>)
    requires 0 < sectsz
    ensures |q| == n
  {
    if n == 0 then []
    else Requests(s, lba, len, sectsz, n - 1) + [PassReq(s, lba, DoneAt(s, len, sectsz, n - 1), len, sectsz)]
  }

  // Guest memory and disk addresses that a list of requests moves, in order.
  ghost function Guest(reqs: seq<BlockReq>): seq<nat> {
    if reqs == [] then [] else Guest(reqs[..|reqs| - 1]) + Bytes(reqs[|reqs| - 1].iov)
  }

  ghost function Disk(reqs: seq<BlockReq>): seq<nat> {
    if reqs == [] then []
    else Disk(reqs[..|reqs| - 1]) + Run(reqs[|reqs| - 1].offset, reqs[|reqs| - 1].resid)
  }

  lemma RunJoined(base: nat, x: nat, y: nat)
    ensures Run(base, x) + Run(base + x, y) == Run(base, x + y)
  {}

  // The requests move the first 'done' bytes of the table and of the disk from 'lba' on, once and in order.
  ghost predicate Covered(reqs: seq<BlockReq>, s: seq<Segment>, lba: nat, done: nat) {
    && done <= |Bytes(s)| && Guest(reqs) == Bytes(s)[..done] && Disk(reqs) == Run(lba, done)
    && forall k :: 0 <= k < |reqs| ==> |reqs[k].iov| <= IOV_MAX
  }

  lemma MovedOneMore(reqs: seq<BlockReq>, q: BlockReq)
    ensures Guest(reqs + [q]) == Guest(reqs) + Bytes(q.iov)
    ensures Disk(reqs + [q]) == Disk(reqs) + Run(q.offset, q.resid)
  {
    assert (reqs + [q])[..|reqs|] == reqs;
  }

  lemma Adjoining(b: seq<nat>, x: nat, y: nat, p: seq<nat>)
    requires x <= y && x <= |b| && if y == x then p == [] else y <= |b| && p == b[x..y]
    ensures y <= |b| && b[..x] + p == b[..y]
  {}

  lemma CoveredOneMore(reqs: seq<BlockReq>, s: seq<Segment>, lba: nat, done: nat, len: nat, sectsz: nat)
    requires Entries(s) && 0 < sectsz && Covered(reqs, s, lba, done)
    ensures Covered(reqs + [PassReq(s, lba, done, len, sectsz)], s, lba, PassEnd(s, done, len, sectsz))
  {
    var q, end := PassReq(s, lba, done, len, sectsz), PassEnd(s, done, len, sectsz);
    PassMoves(s, lba, done, len, sectsz);
    EndBounds(s, done, len, sectsz);
    MovedOneMore(reqs, q);
    Adjoining(Bytes(s), done, end, Bytes(q.iov));
    RunJoined(lba, done, q.resid);
  }

  /** The passes move the bytes of the table, and of the disk from 'lba' on, exactly once and in order. */
  lemma {:induction false} ChainCovers(s: seq<Segment>, lba: nat, len: nat, sectsz: nat, n: nat)
    requires Entries(s) && 0 < sectsz
    ensures Covered(Requests(s, lba, len, sectsz, n), s, lba, DoneAt(s, len, sectsz, n))
  {
    if n > 0 {
      ChainCovers(s, lba, len, sectsz, n - 1);
      CoveredOneMore(Requests(s, lba, len, sectsz, n - 1), s, lba, DoneAt(s, len, sectsz, n - 1), len, sectsz);
    }
  }

  // Pass k of a chain is possible.
  ghost predicate OkAt(s: seq<Segment>, len: nat, sectsz: nat, k: nat)
    requires 0 < sectsz
  {
    PassOk(s, DoneAt(s, len, sectsz, k), len, sectsz)
  }

  // The chain goes on after n passes.
  ghost predicate GoesOn(s: seq<Segment>, len: nat, sectsz: nat, n: nat)
    requires 0 < sectsz
  {
    n == 0 || PassMore(s, DoneAt(s, len, sectsz, n - 1), len, sectsz)
  }

  // The first n passes are possible, and each but the last leaves more to do.
  ghost predicate Chained(s: seq<Segment>, len: nat, sectsz: nat, n: nat)
    requires 0 < sectsz
  {
    forall k :: 0 <= k < n ==> OkAt(s, len, sectsz, k) && GoesOn(s, len, sectsz, k)
  }

  // The requests of a chain so far.
  ghost predicate Underway(reqs: seq<BlockReq>, done: nat, s: seq<Segment>, lba: nat, len: nat, sectsz: nat)
    requires 0 < sectsz
  {
    && reqs == Requests(s, lba, len, sectsz, |reqs|) && done == DoneAt(s, len, sectsz, |reqs|)
    && Chained(s, len, sectsz, |reqs|)
  }

  lemma ChainedOneMore(s: seq<Segment>, len: nat, sectsz: nat, n: nat)
    requires 0 < sectsz && Chained(s, len, sectsz, n) && OkAt(s, len, sectsz, n) && GoesOn(s, len, sectsz, n)
    ensures Chained(s, len, sectsz, n + 1)
  {}

  // Another pass was made.
  lemma UnderwayOneMore(reqs: seq<BlockReq>, done: nat, s: seq<Segment>, lba: nat, len: nat, sectsz: nat)
    requires Entries(s) && 0 < sectsz && Underway(reqs, done, s, lba, len, sectsz)
    requires GoesOn(s, len, sectsz, |reqs|) && PassOk(s, done, len, sectsz)
    ensures Underway(reqs + [PassReq(s, lba, done, len, sectsz)], PassEnd(s, done, len, sectsz), s, lba, len, sectsz)
    ensures GoesOn(s, len, sectsz, |reqs| + 1) == PassMore(s, done, len, sectsz)
  {
    ChainedOneMore(s, len, sectsz, |reqs|);
  }

  lemma WholeSectors(done: nat, todo: nat, sectsz: nat)
    requires 0 < sectsz && done % sectsz == 0
    ensures (done + (todo - todo % sectsz)) % sectsz == 0
  {
    var q, d := todo / sectsz, done / sectsz;
    assert todo - todo % sectsz == q * sectsz;
    assert done == d * sectsz;
    assert done + (todo - todo % sectsz) == (d + q) * sectsz;
    MultipleDivides(d + q, sectsz);
  }

  // A pass that leaves more to do makes progress, in whole sectors.
  lemma MoreMeans(s: seq<Segment>, done: nat, len: nat, sectsz: nat)
    requires Entries(s) && 0 < sectsz && PassOk(s, done, len, sectsz) && PassMore(s, done, len, sectsz)
    ensures done < PassEnd(s, done, len, sectsz) < len
    ensures done % sectsz == 0 ==> PassEnd(s, done, len, sectsz) % sectsz == 0
  {
    EndBounds(s, done, len, sectsz);
    if done % sectsz == 0 {
      WholeSectors(done, Reach(s, done, len) - done, sectsz);
    }
  }

  /** Every pass but the last ends on a sector, and strictly before the end of the transfer. */
  lemma {:induction false} ChainAligned(s: seq<Segment>, len: nat, sectsz: nat, n: nat)
    requires Entries(s) && 0 < sectsz && Chained(s, len, sectsz, n) && 0 < n && 0 < len
    ensures DoneAt(s, len, sectsz, n - 1) % sectsz == 0 && DoneAt(s, len, sectsz, n - 1) < len
  {
    if n == 1 {
      SmallRemainder(0, sectsz);
    } else {
      ChainAligned(s, len, sectsz, n - 1);
      assert OkAt(s, len, sectsz, n - 2) && GoesOn(s, len, sectsz, n - 1);
      MoreMeans(s, DoneAt(s, len, sectsz, n - 2), len, sectsz);
    }
  }

  // The last pass of a transfer that the table has room for reaches its end.
  lemma LastReaches(s: seq<Segment>, done: nat, len: nat, sectsz: nat)
    requires Entries(s) && 0 < sectsz && done < len <= Total(s, |s|) && done % sectsz == 0 && len % sectsz == 0
    requires !PassMore(s, done, len, sectsz)
    ensures PassEnd(s, done, len, sectsz) == len
  {
    var f := First(s, done);
    ReachBounds(s, done, len);
    EndBounds(s, done, len, sectsz);
    WholeRest(done, len, sectsz);
    FirstHolds(s, done, 0);
  }

  // No chain gets further than its table.
  lemma ChainInside(s: seq<Segment>, len: nat, sectsz: nat, n: nat)
    requires Entries(s) && 0 < sectsz
    ensures DoneAt(s, len, sectsz, n) <= Total(s, |s|)
  {
    ChainCovers(s, 0, len, sectsz, n);
    BytesLength(s, |s|);
    assert s[..|s|] == s;
  }

  /** A chain that is not cut short reaches the end of the transfer exactly when the table has room for it. */
  lemma ChainReaches(s: seq<Segment>, len: nat, sectsz: nat, n: nat)
    requires Entries(s) && 0 < sectsz && 0 < n && Chained(s, len, sectsz, n)
    requires 0 < len && len % sectsz == 0
    requires !GoesOn(s, len, sectsz, n)
    ensures DoneAt(s, len, sectsz, n) == len <==> len <= Total(s, |s|)
  {
    ChainInside(s, len, sectsz, n);
    if len <= Total(s, |s|) {
      ChainAligned(s, len, sectsz, n);
      LastReaches(s, DoneAt(s, len, sectsz, n - 1), len, sectsz);
    }
  }

  // A chain so far, and whether it goes on.  The quantifier keeps the chain out of proofs that only hand it on.
  ghost predicate Going(reqs: seq<BlockReq>, done: nat, more: bool, s: seq<Segment>, lba: nat, len: nat, sectsz: nat)
    requires 0 < sectsz
  {
    forall n :: n == |reqs| ==> Underway(reqs, done, s, lba, len, sectsz) && more == GoesOn(s, len, sectsz, n)
  }

  // The pass that follows 'reqs'.
  method NextPass(prdt: seq<Segment>, lba: nat, ghost reqs: seq<BlockReq>, done: nat, len: nat, sectsz: nat)
    returns (ok: bool, breq: BlockReq, done': nat, more: bool)
    requires Entries(prdt) && 0 < sectsz && Going(reqs, done, true, prdt, lba, len, sectsz)
    ensures ok <==> PassOk(prdt, done, len, sectsz)
    ensures ok ==> Going(reqs + [breq], done', more, prdt, lba, len, sectsz) && (more ==> done < done' < len)
  {
    assert GoesOn(prdt, len, sectsz, |reqs|);
    ok, breq, done', more := OnePass(prdt, lba, done, len, sectsz);
    if ok {
      UnderwayOneMore(reqs, done, prdt, lba, len, sectsz);
      if more {
        MoreMeans(prdt, done, len, sectsz);
      }
    }
  }

  /**
   * A whole read or write command: one request per pass, the next pass started by the completion of the previous one
   * while there is more to do.  It stops short only where the backend fails or a pass fails its assertion.
   */
  method Transfer(prdt: seq<Segment>, lba: nat, len: nat, sectsz: nat, fails: nat -> bool)
    returns (reqs: seq<BlockReq>, done: nat, failed: bool, asserted: bool)
    requires Entries(prdt) && 0 < sectsz
    ensures Underway(reqs, done, prdt, lba, len, sectsz)
    ensures !failed && !asserted ==> !GoesOn(prdt, len, sectsz, |reqs|)
    ensures failed <==> reqs != [] && fails(|reqs| - 1)
    ensures forall k :: 0 <= k < |reqs| - 1 ==> !fails(k)
    ensures asserted ==> !failed && GoesOn(prdt, len, sectsz, |reqs|) && !PassOk(prdt, done, len, sectsz)
  {
    var more := true;
    reqs, done, failed, asserted := [], 0, false, false;
    assert Underway([], 0, prdt, lba, len, sectsz);
    while more && !failed && !asserted
      invariant Going(reqs, done, more, prdt, lba, len, sectsz)
      invariant reqs != [] && more ==> done < len
      invariant failed <==> reqs != [] && fails(|reqs| - 1)
      invariant forall k :: 0 <= k < |reqs| - 1 ==> !fails(k)
      invariant asserted ==> !failed && more && !PassOk(prdt, done, len, sectsz)
      decreases more, if reqs == [] then len + 1 else len - done, !failed, !asserted
    {
      var ok, breq, done', more' := NextPass(prdt, lba, reqs, done, len, sectsz);
      if ok {
        failed := fails(|reqs|);
        reqs, done, more := reqs + [breq], done', more';
      } else {
        asserted := true;
      }
    }
    assert GoesOn(prdt, len, sectsz, |reqs|) == more;
  }
}
