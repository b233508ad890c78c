/** Searching the circular buffer for whole lines. */
module CbufLines {
  import opened Ring
  import opened Cbufs

  // ---- Lines of a byte sequence

  function Newlines(s: seq<Byte>): nat {
    if |s| == 0 then 0 else (if s[0] == NEWLINE then 1 else 0) + Newlines(s[1..])
  }

  lemma {:induction false} NewlinesConcat(a: seq<Byte>, b: seq<Byte>)
    ensures Newlines(a + b) == Newlines(a) + Newlines(b)
  {
    if |a| == 0 {
      assert a + b == b;
    } else {
      assert (a + b)[1..] == a[1..] + b;
      NewlinesConcat(a[1..], b);
    }
  }

  lemma NewlinesNext(s: seq<Byte>, n: nat)
    requires n < |s|
    ensures Newlines(s[..n + 1]) == Newlines(s[..n]) + (if s[n] == NEWLINE then 1 else 0)
  {
    assert s[..n + 1] == s[..n] + [s[n]];
    assert [s[n]][1..] == [];
    NewlinesConcat(s[..n], [s[n]]);
  }

  lemma NewlinesMonotone(s: seq<Byte>, k: nat, n: nat)
    requires k <= n <= |s|
    ensures Newlines(s[..k]) <= Newlines(s[..n])
  {
    assert s[..n] == s[..k] + s[k..n];
    NewlinesConcat(s[..k], s[k..n]);
  }

  /** A front part made of complete lines. */
  predicate WholeLines(u: seq<Byte>, k: nat) {
    k <= |u| && (k == 0 || u[k - 1] == NEWLINE)
  }

  /** Complete lines end at different counts, so the count fixes the length. */
  lemma WholeLinesUnique(u: seq<Byte>, j: nat, k: nat)
    requires WholeLines(u, j) && WholeLines(u, k) && Newlines(u[..j]) == Newlines(u[..k])
    ensures j == k
  {
    if j < k {
      NewlinesMonotone(u, j, k - 1);
      NewlinesNext(u, k - 1);
    }
    if k < j {
      NewlinesMonotone(u, k, j - 1);
      NewlinesNext(u, j - 1);
    }
  }

  /** `cbuf_find_unread_line`: for a positive count the length of exactly that many lines,
      or nothing; for -1 the longest stretch of whole lines that fits the characters. */
  method FindUnreadLine(cb: Cbuf, maxChars: int, wanted: int) returns (m: nat, l: nat)
    requires cb.Valid() && wanted >= -1
    ensures WholeLines(cb.Unread(), m) && l == Newlines(cb.Unread()[..m])
    ensures wanted >= 0 ==> l == if Newlines(cb.Unread()) >= wanted then wanted else 0
    ensures wanted == -1 ==> m <= Max(maxChars, 0)
    ensures wanted == -1 ==> forall k :: 0 < k <= maxChars && WholeLines(cb.Unread(), k) ==> k <= m
  {
    hide Mod, CursorsOk, Newlines, Tail, Dist, Back;
    ghost var u := cb.Unread();
    ghost var size1 := cb.size + 1;
    m, l := 0, 0;
    NewlinesEnds(u);
    if wanted == 0 || (wanted == -1 && maxChars <= 0) {
      return;
    }
    cb.AllIsTail();
    if cb.used == 0 {
      return;
    }
    var chars, lines, n := if wanted > 0 then -1 else maxChars, wanted, 0;
    var i := cb.iOut;
    DistBack(cb.iOut, cb.iIn, size1);
    while i != cb.iIn
      invariant 0 <= n <= |u| == cb.used && i == Back(cb.iIn, cb.used - n, size1)
      invariant WholeLines(u, m) && m <= n && l == Newlines(u[..m]) == Newlines(u[..n])
      invariant wanted > 0 ==> chars == -1 && lines == wanted - l && lines > 0
      invariant wanted == -1 ==> lines == -1 && chars == maxChars - n > 0
      decreases |u| - n
    {
      IndexOfUnread(cb.data[..], cb.iIn, cb.used, n, i);
      NewlinesNext(u, n);
      n := n + 1;
      if chars > 0 {
        chars := chars - 1;
      }
      if cb.data[i] == NEWLINE {
        if lines > 0 {
          lines := lines - 1;
        }
        m := n;
        l := l + 1;
      }
      if chars == 0 || lines == 0 {
        break;
      }
      ModFwd(i, 1, size1);
      i := Mod(i + 1, cb.size + 1);
    }
    BackZero(cb.iIn, cb.used - n, size1);
    NewlinesMonotone(u, n, |u|);
    if wanted == -1 {
      NothingBetween(u, m, n);
    }
    if lines > 0 {
      return 0, 0;
    }
  }

  lemma NewlinesEnds(u: seq<Byte>)
    ensures Newlines(u[..0]) == 0 && u[..|u|] == u
  {
  }

  lemma BackZero(end: nat, k: nat, n: nat)
    requires end < n && k < n
    ensures Back(end, k, n) == end <==> k == 0
  {
  }

  lemma IndexOfUnread(data: seq<Byte>, end: nat, len: nat, n: nat, i: nat)
    requires end < |data| && n <= len < |data| && i == Back(end, len - n, |data|)
    ensures i < |data| && (i != end ==> n < len)
    ensures n < len ==> Tail(data, end, len)[n] == data[i] && Fwd(i, 1, |data|) == Back(end, len - (n + 1), |data|)
  {
  }

  /** No line ends where no newline was counted. */
  lemma NothingBetween(u: seq<Byte>, m: nat, n: nat)
    requires m <= n <= |u| && Newlines(u[..m]) == Newlines(u[..n])
    ensures forall k :: m < k <= n ==> !WholeLines(u, k)
  {
    forall k | m < k <= n
      ensures !WholeLines(u, k)
    {
      NewlinesMonotone(u, m, k - 1);
      NewlinesNext(u, k - 1);
      NewlinesMonotone(u, k, n);
    }
  }

  /** `cbuf_read_line`: takes the lines asked for, or nothing if there are fewer, or for -1 as
      many as fit; what is handed out is cut to the length of the destination. */
  method ReadLine(cb: Cbuf, len: int, lines: int) returns (n: int, line: seq<Byte>)
    requires cb.Valid()
    modifies cb`used, cb`iOut
    ensures cb.Valid() && cb.data[..] == old(cb.data[..])
    ensures n < 0 <==> len < 0 || lines < -1
    ensures n < 0 ==> n == -1 && line == [] && cb.Unread() == old(cb.Unread()) && cb.Replay() == old(cb.Replay())
    ensures n >= 0 ==> WholeLines(old(cb.Unread()), n)
    ensures n >= 0 ==> cb.Unread() == old(cb.Unread())[n..] && cb.Replay() == old(cb.Replay()) + old(cb.Unread())[..n]
    ensures n >= 0 ==> line == old(cb.Unread())[..Max(0, Min(n, len - 1))]
    ensures n >= 0 && lines >= 0 ==> Newlines(old(cb.Unread())[..n]) == if Newlines(old(cb.Unread())) >= lines then lines else 0
    ensures n >= 0 && lines == -1 ==> n <= Max(len - 1, 0)
    ensures n >= 0 && lines == -1 ==> forall k :: 0 < k < len && WholeLines(old(cb.Unread()), k) ==> k <= n
  {
    hide Newlines, Tail, CursorsOk;
    line := [];
    NewlinesEnds(cb.Unread());
    assert cb.Unread()[0..] == cb.Unread() && cb.Replay() + cb.Unread()[..0] == cb.Replay();
    if len < 0 || lines < -1 {
      return -1, line;
    }
    if lines == 0 {
      return 0, line;
    }
    var l;
    n, l := FindUnreadLine(cb, len - 1, lines);
    if n > 0 {
      if len > 0 {
        var m := Min(n, len - 1);
        if m > 0 {
          var got;
          got, line := cb.Reader(m, m, 0);
        }
      }
      cb.Dropper(n);
    }
  }

  // ---- Replay lines

  /** How many lines a final part is made of: its last line counts without a newline too. */
  function LinesOf(s: seq<Byte>): nat {
    Newlines(s) + (if |s| > 0 && s[|s| - 1] != NEWLINE then 1 else 0)
  }

  /** A final part of the replay bytes that starts at the start of a line; the oldest byte
      starts one only while nothing has been overwritten. */
  predicate StartsLine(r: seq<Byte>, k: nat, wrapped: bool) {
    0 < k <= |r| && (if k == |r| then !wrapped else r[|r| - k - 1] == NEWLINE)
  }

  function Last(r: seq<Byte>, k: nat): seq<Byte>
    requires k <= |r|
  {
    r[|r| - k..]
  }

  lemma LastNext(r: seq<Byte>, n: nat)
    requires n < |r|
    ensures Newlines(Last(r, n + 1)) == Newlines(Last(r, n)) + (if r[|r| - n - 1] == NEWLINE then 1 else 0)
  {
    assert Last(r, n + 1)[1..] == Last(r, n);
  }

  lemma LastMonotone(r: seq<Byte>, k: nat, n: nat)
    requires k <= n <= |r|
    ensures Newlines(Last(r, k)) <= Newlines(Last(r, n))
  {
    assert Last(r, n) == r[|r| - n..|r| - k] + Last(r, k);
    NewlinesConcat(r[|r| - n..|r| - k], Last(r, k));
  }

  /** What the backward scan knows after n bytes: m is the part after the newline it met
      last, and l counts the lines of that part. */
  ghost predicate Marked(r: seq<Byte>, n: nat, m: nat, l: int) {
    && 0 < |r| && n <= |r|
    && l == Newlines(Last(r, n)) - 1 + Unterminated(r)
    && (Newlines(Last(r, n)) == 0 ==> m == 0)
    && (Newlines(Last(r, n)) > 0 ==> MarkedAt(r, n, m))
  }

  ghost predicate MarkedAt(r: seq<Byte>, n: nat, m: nat) {
    n <= |r| && m < n && r[|r| - m - 1] == NEWLINE && Newlines(Last(r, m)) == Newlines(Last(r, n)) - 1
  }

  /** 1 when the newest replay line lacks its newline. */
  function Unterminated(r: seq<Byte>): nat {
    if |r| > 0 && r[|r| - 1] != NEWLINE then 1 else 0
  }

  lemma MarkedStart(r: seq<Byte>)
    requires |r| > 0
    ensures Marked(r, 0, 0, Unterminated(r) - 1) && Newlines(Last(r, 0)) == 0
  {
  }

  lemma MarkedNext(r: seq<Byte>, n: nat, m: nat, l: int)
    requires Marked(r, n, m, l) && n < |r|
    ensures if r[|r| - n - 1] == NEWLINE then Marked(r, n + 1, n, l + 1) else Marked(r, n + 1, m, l)
  {
    LastNext(r, n);
  }

  lemma LinesOfLast(r: seq<Byte>, k: nat)
    requires 0 < k <= |r|
    ensures LinesOf(Last(r, k)) == Newlines(Last(r, k)) + Unterminated(r)
  {
  }

  /** A line start that the scan has passed lies no further back than its mark. */
  lemma MarkedIsFirst(r: seq<Byte>, n: nat, m: nat, l: int, k: nat, wrapped: bool)
    requires Marked(r, n, m, l) && StartsLine(r, k, wrapped) && k < n
    ensures k <= m && Newlines(Last(r, k)) < Newlines(Last(r, n))
  {
    LastNext(r, k);
    LastMonotone(r, k + 1, n);
    if m < k {
      LastMonotone(r, m + 1, k);
      LastNext(r, m);
    }
  }

  /** The mark after at least one byte is the start of l whole lines. */
  lemma MarkedLines(r: seq<Byte>, n: nat, m: nat, l: int, wrapped: bool)
    requires Marked(r, n, m, l) && n > 0
    ensures m > 0 ==> StartsLine(r, m, wrapped) && LinesOf(Last(r, m)) == l
    ensures m == 0 ==> l == 0
  {
    LastMonotone(r, 1, n);
    LastNext(r, 0);
    assert Newlines(Last(r, 0)) == 0;
    if m > 0 {
      LinesOfLast(r, m);
    }
  }

  /** What the search promises for its result. */
  ghost predicate ReplayLines(r: seq<Byte>, wrapped: bool, maxChars: int, wanted: int, m: nat, l: int) {
    && (m > 0 ==> StartsLine(r, m, wrapped) && l == LinesOf(Last(r, m)))
    && (m == 0 ==> l == 0)
    && (wanted > 0 ==> (m > 0 ==> l == wanted)
                       && (m == 0 ==> forall k: nat :: StartsLine(r, k, wrapped) ==> LinesOf(Last(r, k)) < wanted))
    && (wanted == -1 ==> (m > 0 ==> m + Unterminated(r) <= maxChars)
                         && forall k: nat :: StartsLine(r, k, wrapped) && k + Unterminated(r) <= maxChars ==> k <= m)
    && (wanted == 0 ==> m == 0)
  }

  /** The end of the search over an unfinished scan: too few lines, or the oldest line. */
  lemma ScanExhausted(r: seq<Byte>, wrapped: bool, maxChars: int, wanted: int, m: nat, l: int)
    requires Marked(r, |r|, m, l) && wanted >= -1 && wanted != 0
    requires wanted > 0 ==> Newlines(r) + Unterminated(r) <= wanted
    requires wanted == -1 ==> |r| + Unterminated(r) <= maxChars
    ensures wanted > 0 && (wrapped || Newlines(r) + Unterminated(r) < wanted) ==>
      ReplayLines(r, wrapped, maxChars, wanted, 0, 0)
    ensures wanted > 0 && !wrapped && Newlines(r) + Unterminated(r) == wanted ==>
      ReplayLines(r, wrapped, maxChars, wanted, |r|, l + 1)
    ensures wanted == -1 && wrapped ==> ReplayLines(r, wrapped, maxChars, wanted, m, l)
    ensures wanted == -1 && !wrapped ==> ReplayLines(r, wrapped, maxChars, wanted, |r|, l + 1)
  {
    assert Last(r, |r|) == r;
    MarkedLines(r, |r|, m, l, wrapped);
    LinesOfLast(r, |r|);
    forall k: nat | StartsLine(r, k, wrapped) && k < |r|
      ensures k <= m && LinesOf(Last(r, k)) < Newlines(r) + Unterminated(r)
    {
      MarkedIsFirst(r, |r|, m, l, k, wrapped);
      LinesOfLast(r, k);
    }
  }

  /** The end of the search when the scan stopped early. */
  lemma ScanStopped(r: seq<Byte>, wrapped: bool, maxChars: int, wanted: int, n: nat, m: nat, l: int)
    requires Marked(r, n, m, l) && n > 0 && wanted >= -1 && wanted != 0
    requires wanted > 0 ==> l == wanted && m > 0
    requires wanted == -1 ==> n == maxChars + 1 - Unterminated(r)
    ensures ReplayLines(r, wrapped, maxChars, wanted, m, l)
  {
    MarkedLines(r, n, m, l, wrapped);
    if wanted == -1 {
      forall k: nat | StartsLine(r, k, wrapped) && k + Unterminated(r) <= maxChars
        ensures k <= m
      {
        MarkedIsFirst(r, n, m, l, k, wrapped);
      }
    }
  }

  lemma MarkedPositive(r: seq<Byte>, n: nat, m: nat, l: int)
    requires Marked(r, n, m, l) && n > 0 && l > 0
    ensures m > 0
  {
    LastMonotone(r, 1, n);
    LastNext(r, 0);
    assert Newlines(Last(r, 0)) == 0;
  }

  lemma IndexOfReplay(data: seq<Byte>, out: nat, len: nat, n: nat, i: nat)
    requires out < |data| && n < len < |data| && i == Back(out, n, |data|)
    ensures Back(i, 1, |data|) == Back(out, n + 1, |data|)
    ensures Tail(data, out, len)[len - n - 1] == data[Back(out, n + 1, |data|)]
  {
  }

  lemma ScanEnd(rep: nat, out: nat, n: nat, size1: nat)
    requires rep < size1 && out < size1 && n <= Dist(rep, out, size1)
    ensures Back(out, n, size1) == rep <==> n == Dist(rep, out, size1)
  {
  }

  /** `cbuf_find_replay_line`: the same for replay bytes, where the newest line counts as
      complete without a newline, and the oldest only while the buffer has not wrapped. */
  method FindReplayLine(cb: Cbuf, maxChars: int, wanted: int) returns (m: nat, l: int, nl: nat)
    requires cb.Valid() && wanted >= -1
    ensures ReplayLines(cb.Replay(), cb.gotWrap, maxChars, wanted, m, l)
    ensures nl == if wanted == 0 || (wanted == -1 && maxChars <= 0) then 0 else Unterminated(cb.Replay())
  {
    hide Mod, CursorsOk, Newlines, Tail, Dist, Back, Fwd, Marked, ReplayLines, Last;
    ghost var r := cb.Replay();
    ghost var size1 := cb.size + 1;
    m, l, nl := 0, 0, 0;
    cb.AllIsTail();
    if |r| == 0 || wanted == 0 || (wanted == -1 && maxChars <= 0) {
      NothingFound(r, cb.gotWrap, maxChars, wanted);
    }
    ScanEnd(cb.iRep, cb.iOut, 0, size1);
    BackNone(cb.iOut, size1);
    if wanted == 0 || (wanted == -1 && maxChars <= 0) {
      return;
    }
    if cb.iOut == cb.iRep {
      return;
    }
    var chars, lines := if wanted > 0 then -1 else maxChars + 1, wanted;
    IndexOfReplay(cb.data[..], cb.iOut, |r|, 0, cb.iOut);
    StepBack(cb.iOut, cb.size);
    if cb.data[Mod(cb.iOut + cb.size, cb.size + 1)] != NEWLINE {
      nl := 1;
      chars := chars - 1;
    } else {
      if lines > 0 {
        lines := lines + 1;
      }
      l := l - 1;
    }
    var i, n := cb.iOut, 0;
    MarkedStart(r);
    while i != cb.iRep
      invariant 0 <= n <= |r| && i == Back(cb.iOut, n, size1) && Marked(r, n, m, l)
      invariant wanted > 0 ==> chars < 0 && lines == wanted - l > 0
      invariant wanted == -1 ==> lines == -1 && chars == maxChars + 1 - nl - n > 0
      decreases |r| - n
    {
      ScanEnd(cb.iRep, cb.iOut, n, size1);
      IndexOfReplay(cb.data[..], cb.iOut, |r|, n, i);
      StepBack(i, cb.size);
      MarkedNext(r, n, m, l);
      i := Mod(i + cb.size, cb.size + 1);
      n := n + 1;
      if chars > 0 {
        chars := chars - 1;
      }
      if cb.data[i] == NEWLINE {
        if lines > 0 {
          lines := lines - 1;
        }
        m := n - 1;
        l := l + 1;
      }
      if chars == 0 || lines == 0 {
        break;
      }
    }
    ScanEnd(cb.iRep, cb.iOut, n, size1);
    if chars == 0 || lines == 0 {
      if lines == 0 { MarkedPositive(r, n, m, l); }
      ScanStopped(r, cb.gotWrap, maxChars, wanted, n, m, l);
    } else {
      MarkedCount(r, m, l);
      ScanExhausted(r, cb.gotWrap, maxChars, wanted, m, l);
    }
    if !cb.gotWrap && (chars > 0 || lines > 0) {
      if lines > 0 {
        lines := lines - 1;
      }
      m := n;
      l := l + 1;
    }
    if lines > 0 {
      return 0, 0, nl;
    }
  }

  lemma MarkedCount(r: seq<Byte>, m: nat, l: int)
    requires Marked(r, |r|, m, l)
    ensures l == Newlines(r) - 1 + Unterminated(r)
  {
    assert Last(r, |r|) == r;
  }

  lemma StepBack(i: nat, size: nat)
    requires i <= size
    ensures Mod(i + size, size + 1) == Back(i, 1, size + 1)
  {
    if size > 0 {
      ModBack(i, 1, size + 1);
    } else {
      DivUnique(i + size, size + 1, 0, 0);
    }
  }

  lemma BackNone(i: nat, n: nat)
    requires i < n
    ensures Back(i, 0, n) == i
  {
  }

  lemma NothingFound(r: seq<Byte>, wrapped: bool, maxChars: int, wanted: int)
    requires |r| == 0 || wanted == 0 || (wanted == -1 && maxChars <= 0)
    ensures ReplayLines(r, wrapped, maxChars, wanted, 0, 0)
  {
  }
}
