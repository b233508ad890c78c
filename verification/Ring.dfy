/** Index arithmetic of the circular buffer: the bytes that end just before an index. */
module Ring {
  newtype Byte = x: int | 0 <= x < 256

  const NEWLINE: Byte := 10

  /** The index k places before i in a ring of n places. */
  function Back(i: nat, k: nat, n: nat): (j: nat)
    requires i < n && k <= n
    ensures j < n
  {
    if k <= i then i - k else i + n - k
  }

  /** The index k places after i. */
  function Fwd(i: nat, k: nat, n: nat): (j: nat)
    requires i < n && k <= n
    ensures j < n
  {
    if i + k < n then i + k else i + k - n
  }

  /** The modulus as the code writes it. */
  function Mod(x: int, n: nat): (r: nat)
    requires n > 0
    ensures r < n
  {
    x % n
  }

  lemma ModFwd(i: nat, k: nat, n: nat)
    requires i < n && k <= n
    ensures Mod(i + k, n) == Fwd(i, k, n)
  {
    if i + k >= n {
      assert (i + k) == n * 1 + (i + k - n);
      DivUnique(i + k, n, 1, i + k - n);
    } else {
      DivUnique(i + k, n, 0, i + k);
    }
  }

  lemma ModBack(i: nat, k: nat, n: nat)
    requires i < n && k <= n
    ensures Mod(i - k + n, n) == Back(i, k, n)
  {
    if k <= i {
      DivUnique(i - k + n, n, 1, i - k);
    } else {
      DivUnique(i - k + n, n, 0, i - k + n);
    }
  }

  lemma DivUnique(x: int, n: nat, q: int, r: nat)
    requires n > 0 && x == n * q + r && r < n
    ensures Mod(x, n) == r
  {
    var d := x / n - q;
    assert n * d == r - x % n;
    assert d >= 1 ==> n * d >= n;
    assert d <= -1 ==> n * -d >= n;
  }

  /** Distance from i forward to j. */
  function Dist(i: nat, j: nat, n: nat): (k: nat)
    requires i < n && j < n
    ensures k < n
  {
    if j >= i then j - i else j + n - i
  }

  lemma ModDist(i: nat, j: nat, n: nat)
    requires i < n && j < n
    ensures Mod(j - i + n, n) == Dist(i, j, n)
  {
    ModBack(j, i, n);
  }

  /** The len bytes before index end, oldest first. */
  function Tail(data: seq<Byte>, end: nat, len: nat): (s: seq<Byte>)
    requires end < |data| && len <= |data|
    ensures |s| == len
    ensures forall k :: 0 <= k < len ==> s[k] == data[Back(end, len - k, |data|)]
  {
    seq(len, k requires 0 <= k < len => data[Back(end, len - k, |data|)])
  }

  /** The last bytes of a sequence, at most n. */
  function LastN(s: seq<Byte>, n: nat): (t: seq<Byte>)
    ensures |t| == if |s| <= n then |s| else n
  {
    if |s| <= n then s else s[|s| - n..]
  }

  lemma TailSuffix(data: seq<Byte>, end: nat, len: nat, m: nat)
    requires end < |data| && m <= len <= |data|
    ensures Tail(data, end, len)[len - m..] == Tail(data, end, m)
  {
  }

  lemma TailPrefix(data: seq<Byte>, end: nat, len: nat, m: nat)
    requires end < |data| && m <= len < |data|
    ensures Tail(data, end, len)[..m] == Tail(data, Back(end, len - m, |data|), m)
  {
    var n, mid := |data|, Back(end, len - m, |data|);
    forall k | 0 <= k < m
      ensures Tail(data, end, len)[k] == Tail(data, mid, m)[k]
    {
      assert Back(mid, m - k, n) == Back(end, len - k, n);
    }
  }

  /** After p bytes of src have been written from start on: the last ones lie before end,
      and the rest of the ring is as it was. */
  predicate Written(was: seq<Byte>, now: seq<Byte>, start: nat, end: nat, src: seq<Byte>, p: nat) {
    var n := |was|;
    && |now| == n && start < n && end < n && p <= |src|
    && (forall k :: 1 <= k <= p && k <= n ==> now[Back(end, k, n)] == src[p - k])
    && (p <= n ==> end == Fwd(start, p, n))
    && (forall k :: p < k <= n ==> now[Back(end, k, n)] == was[Back(end, k, n)])
  }

  lemma WrittenStart(data: seq<Byte>, start: nat, src: seq<Byte>)
    requires start < |data|
    ensures Written(data, data, start, start, src, 0)
  {
  }

  /** One memcpy of m bytes that stays inside the array. */
  lemma WrittenStep(was: seq<Byte>, now: seq<Byte>, now': seq<Byte>, start: nat, end: nat, src: seq<Byte>, p: nat, m: nat)
    requires Written(was, now, start, end, src, p) && p + m <= |src| && end + m <= |was| == |now'|
    requires forall i :: 0 <= i < |was| ==> now'[i] == if end <= i < end + m then src[p + i - end] else now[i]
    ensures Written(was, now', start, Fwd(end, m, |was|), src, p + m)
  {
    var n, end', p' := |was|, Fwd(end, m, |was|), p + m;
    forall k | 1 <= k <= p' && k <= n
      ensures now'[Back(end', k, n)] == src[p' - k]
    {
      if k <= m {
        assert Back(end', k, n) == end + m - k;
      } else {
        assert Back(end', k, n) == Back(end, k - m, n);
      }
    }
    forall k | p' < k <= n
      ensures now'[Back(end', k, n)] == was[Back(end', k, n)]
    {
      assert Back(end', k, n) == Back(end, k - m, n);
    }
  }

  /** What a write leaves before its end: the last bytes of old contents and new bytes. */
  lemma WrittenTail(was: seq<Byte>, now: seq<Byte>, start: nat, end: nat, src: seq<Byte>, p: nat, len: nat)
    requires Written(was, now, start, end, src, p) && len < |was|
    ensures var total := if len + p < |was| - 1 then len + p else |was| - 1;
      Tail(now, end, total) == LastN(Tail(was, start, len) + src[..p], |was| - 1)
  {
    var n := |was|;
    var total := if len + p < n - 1 then len + p else n - 1;
    var all := Tail(was, start, len) + src[..p];
    assert LastN(all, n - 1) == all[|all| - total..];
    forall j | 1 <= j <= total
      ensures now[Back(end, j, n)] == all[|all| - j]
    {
      if j > p {
        assert Back(end, j, n) == Back(start, j - p, n);
        assert Tail(was, start, len)[len - (j - p)] == was[Back(start, j - p, n)];
      }
    }
    forall k | 0 <= k < total
      ensures Tail(now, end, total)[k] == all[|all| - total + k]
    {
      assert now[Back(end, total - k, n)] == all[|all| - (total - k)];
    }
  }

  /** Following an index that moves on by m places at a time. */
  lemma ModAdd(i: nat, p: nat, m: nat, n: nat)
    requires n > 0 && m <= n
    ensures Mod(Mod(i + p, n) + m, n) == Mod(i + p + m, n)
  {
    var q, r := (i + p) / n, (i + p) % n;
    assert i + p == n * q + r;
    ModFwd(r, m, n);
    if r + m < n {
      DivUnique(i + p + m, n, q, r + m);
    } else {
      assert n * (q + 1) == n * q + n;
      DivUnique(i + p + m, n, q + 1, r + m - n);
    }
  }

  // ---- The cursors

  /** The cursor conditions of `cbuf_is_valid` for a ring of size + 1 places. */
  predicate CursorsOk(size: nat, used: nat, rep: nat, out: nat, in': nat) {
    && (if in' >= out then rep > in' || rep <= out else rep > in' && rep <= out)
    && size - used == Mod(out - in' - 1 + (size + 1), size + 1)
  }

  /** They say that replay and unread data lie one behind the other and fit the size. */
  lemma CursorsIff(size: nat, used: nat, rep: nat, out: nat, in': nat)
    requires rep <= size && out <= size && in' <= size && used <= size
    ensures CursorsOk(size, used, rep, out, in') <==>
      used == Dist(out, in', size + 1) && Dist(rep, out, size + 1) + used <= size
  {
    var x := out - in' - 1 + (size + 1);
    if x >= size + 1 {
      DivUnique(x, size + 1, 1, x - (size + 1));
    } else {
      DivUnique(x, size + 1, 0, x);
    }
  }

  lemma DistBack(i: nat, j: nat, n: nat)
    requires i < n && j < n
    ensures Back(j, Dist(i, j, n), n) == i
  {
  }
}
