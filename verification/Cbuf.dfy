/** The growable circular buffer: replayable bytes, then unread bytes, in one ring with
    three cursors. It refines the two byte sequences it holds. */
module Cbufs {
  import opened Ring

  const CBUF_CHUNK: nat := 1000

  datatype Overwrite = NoDrop | WrapOnce | WrapMany

  function Min(a: int, b: int): int {
    if a <= b then a else b
  }

  function Max(a: int, b: int): int {
    if a >= b then a else b
  }

  class Cbuf {
    var alloc: nat
    var minsize: nat
    var maxsize: nat
    var size: nat
    var used: nat
    var overwrite: Overwrite
    var gotWrap: bool
    var iIn: nat
    var iOut: nat
    var iRep: nat
    var data: array<Byte>

    /** `cbuf_is_valid` */
    ghost predicate Valid()
      reads this
    {
      && data.Length == size + 1 && alloc > size
      && 0 < minsize <= size <= maxsize
      && (gotWrap || iRep == 0)
      && used <= size && iIn <= size && iOut <= size && iRep <= size
      && CursorsOk(size, used, iRep, iOut, iIn)
    }

    ghost function Reused(): (r: nat)
      reads this
      requires iRep <= size && iOut <= size
    {
      Dist(iRep, iOut, size + 1)
    }

    /** Bytes that were read and can be replayed. */
    ghost function Replay(): seq<Byte>
      reads this, data
      requires Valid()
    {
      Tail(data[..], iOut, Reused())
    }

    /** Bytes that were written and not read yet. */
    ghost function Unread(): seq<Byte>
      reads this, data
      requires Valid()
    {
      Tail(data[..], iIn, used)
    }

    ghost function All(): seq<Byte>
      reads this, data
      requires Valid()
    {
      Replay() + Unread()
    }

    lemma AllIsTail()
      requires Valid()
      ensures used == Dist(iOut, iIn, size + 1) && Reused() + used <= size
      ensures All() == Tail(data[..], iIn, Reused() + used)
    {
      CursorsIff(size, used, iRep, iOut, iIn);
      DistBack(iOut, iIn, size + 1);
      TailPrefix(data[..], iIn, Reused() + used, Reused());
      TailSuffix(data[..], iIn, Reused() + used, used);
    }

    /** Settings that no operation on the contents touches. */
    twostate predicate SameSettings()
      reads this
    {
      minsize == old(minsize) && maxsize == old(maxsize) && overwrite == old(overwrite)
    }

    /** The buffer that `cbuf_create` makes; `cookies` are the guard bytes of a debugging
        build. */
    constructor (minsize: nat, maxsize: int, cookies: nat)
      requires minsize > 0
      ensures Valid() && fresh(data) && Unread() == [] && Replay() == []
      ensures this.maxsize == Max(maxsize, minsize) && overwrite == WrapMany
    {
      alloc := minsize + 1 + cookies;
      data := new Byte[minsize + 1](_ => 0);
      this.minsize := minsize;
      this.maxsize := if maxsize > minsize then maxsize else minsize;
      size, used, overwrite, gotWrap := minsize, 0, WrapMany, false;
      iIn, iOut, iRep := 0, 0, 0;
      new;
      CursorsIff(size, used, iRep, iOut, iIn);
    }

    /** `cbuf_opt_set` */
    method SetOverwrite(value: Overwrite)
      requires Valid()
      modifies this`overwrite
      ensures Valid() && overwrite == value
    {
      overwrite := value;
    }

    /** `cbuf_flush` */
    method Flush()
      requires Valid()
      modifies this
      ensures Valid() && data == old(data) && SameSettings() && size == old(size)
      ensures Unread() == [] && Replay() == [] && !gotWrap
    {
      used, gotWrap := 0, false;
      iIn, iOut, iRep := 0, 0, 0;
      CursorsIff(size, used, iRep, iOut, iIn);
    }

    /** `cbuf_grow`, with the allocation succeeding: moves the wrapped part to the new end,
        so that replay and unread bytes stay what they were. */
    method Grow(n: nat) returns (grown: nat)
      requires Valid() && n > 0
      modifies this
      ensures Valid() && (data == old(data) || fresh(data)) && SameSettings()
      ensures Replay() == old(Replay()) && Unread() == old(Unread())
      ensures used == old(used) && gotWrap == old(gotWrap) && Reused() == old(Reused())
      ensures size == old(size) + grown
      ensures grown >= n || size == maxsize
    {
      hide Mod, CursorsOk, Tail, Dist, Back, Fwd;
      if size == maxsize {
        return 0;
      }
      AllIsTail();
      var sizeOld, sizeMeta := size, alloc - size;
      var m := alloc + n;
      m := m + (CBUF_CHUNK - m % CBUF_CHUNK);
      m := Min(m, maxsize + sizeMeta);
      var was := data[..];
      Realloc(m - sizeMeta + 1);
      alloc, size := m, m - sizeMeta;
      MoveWrapped(sizeOld, was);
      CursorsIff(size, used, iRep, iOut, iIn);
      grown := size - sizeOld;
    }

    /** realloc: a longer array with the old bytes in front. */
    method Realloc(length: nat)
      requires length >= data.Length
      modifies this`data
      ensures fresh(data) && data.Length == length && data[..|old(data[..])|] == old(data[..])
    {
      var was := data[..];
      var bigger := new Byte[length](_ => 0);
      forall i | 0 <= i < |was| {
        bigger[i] := was[i];
      }
      data := bigger;
    }

    /** The end of `cbuf_grow`: replay data that wraps around moves to the new end. */
    method MoveWrapped(sizeOld: nat, was: seq<Byte>)
      requires |was| == sizeOld + 1 <= size + 1 == data.Length && data[..|was|] == was
      requires used <= sizeOld && iRep <= sizeOld && iOut <= sizeOld && iIn <= sizeOld
      requires used == Dist(iOut, iIn, sizeOld + 1) && Dist(iRep, iOut, sizeOld + 1) + used <= sizeOld
      modifies this`iRep, this`iOut, data
      ensures iRep <= size && iOut <= size && (old(iRep) == 0 ==> iRep == 0)
      ensures used == Dist(iOut, iIn, size + 1) && Dist(iRep, iOut, size + 1) == Dist(old(iRep), old(iOut), sizeOld + 1)
      ensures Tail(data[..], iIn, used) == Tail(was, iIn, used)
      ensures Tail(data[..], iOut, Dist(iRep, iOut, size + 1)) == Tail(was, old(iOut), Dist(iRep, iOut, size + 1))
    {
      hide Tail, Back;
      ghost var rep, out, before := iRep, iOut, data[..];
      if iRep > iIn {
        var len := sizeOld + 1 - iRep;
        var to := size + 1 - len;
        forall i | 0 <= i < len {
          data[to + i] := was[iRep + i];
        }
        if iOut >= iRep {
          iOut := iOut + to - iRep;
        }
        iRep := to;
      }
      RelocatedNow(was, before, data[..], rep, iIn);
      GrownTail(was, data[..], iIn, used, rep);
      GrownOut(was, data[..], iIn, out, iOut, rep, iRep, Dist(rep, out, sizeOld + 1));
    }

    /** `cbuf_dropper`: the unread bytes dropped become replayable. */
    method Dropper(len: nat)
      requires Valid() && 0 < len <= used
      modifies this`used, this`iOut
      ensures Valid() && data[..] == old(data[..])
      ensures Unread() == old(Unread())[len..] && Replay() == old(Replay()) + old(Unread())[..len]
    {
      hide Mod, CursorsOk, Tail, Dist, Back, Fwd;
      AllIsTail();
      ghost var all := All();
      ModFwd(iOut, len, size + 1);
      DropCursors(size, used, iRep, iOut, iIn, len);
      used := used - len;
      iOut := Mod(iOut + len, size + 1);
      CursorsIff(size, used, iRep, iOut, iIn);
      AllIsTail();
      SplitAgain(all, Replay(), Unread(), old(Replay()), old(Unread()), len);
      assert Replay()[..|Replay()| - len] + old(Unread())[..len] == Replay();
    }

    /** `cbuf_reader` into a sink that takes `accepts` bytes and then reports `err`. */
    method Reader(len: nat, accepts: nat, err: int) returns (n: int, out: seq<Byte>)
      requires Valid() && len > 0 && err <= 0
      ensures out == Unread()[..Min(Min(len, used), accepts)]
      ensures n == if |out| > 0 then |out| else if used == 0 then 0 else err
    {
      var want := Min(len, used);
      out := [];
      if want == 0 {
        return 0, out;
      }
      AllIsTail();
      DistBack(iOut, iIn, size + 1);
      n, out := Gather(data, iOut, iIn, used, want, accepts, err);
    }

    /** `cbuf_replayer` into a sink as above: the newest replay bytes, oldest of them first. */
    method Replayer(len: nat, accepts: nat, err: int) returns (n: int, out: seq<Byte>)
      requires Valid() && len > 0 && err <= 0
      ensures var want := Min(len, |Replay()|);
        && out == Replay()[|Replay()| - want..][..Min(want, accepts)]
        && n == if |out| > 0 then |out| else if want == 0 then 0 else err
    {
      ModDist(iRep, iOut, size + 1);
      var reused := Mod(iOut - iRep + (size + 1), size + 1);
      var want := Min(len, reused);
      out := [];
      if want == 0 {
        return 0, out;
      }
      ModBack(iOut, want, size + 1);
      TailSuffix(data[..], iOut, reused, want);
      n, out := Gather(data, Mod(iOut - want + (size + 1), size + 1), iOut, want, want, accepts, err);
    }

    /** `cbuf_writer` from a source that gives the bytes of src and then reports `err`.
        What is accepted follows the overwrite policy; the buffer keeps the newest bytes. */
    method Writer(len: nat, src: seq<Byte>, err: int) returns (n: int, dropped: nat)
      requires Valid() && len > 0 && err <= 0
      modifies this, data
      ensures Valid() && (data == old(data) || fresh(data)) && SameSettings() && size >= old(size)
      ensures var room := Room(overwrite, maxsize, old(used), len);
        var d := src[..Min(room, |src|)];
        && n == (if room == 0 then -1 else if |d| == 0 then err else |d|)
        && Unread() == LastN(old(Unread()) + d, size)
        && All() == LastN(old(All()) + d, size)
        && dropped == Max(0, old(used) + |d| - size)
        && (size < maxsize ==> old(used) + |d| <= size)
        && gotWrap == (old(gotWrap) || (|d| > 0 && old(|All()|) + |d| > size))
    {
      hide Mod, CursorsOk, LastN, Tail, Dist, Written, Room;
      ghost var u0 := used;
      var nfree, room := MakeRoom(len);
      if room == 0 {
        NothingWritten();
        assert src[..0] == [];
        return -1, 0;
      }
      ghost var was := data[..];
      AllIsTail();
      var m, iDst;
      n, m, iDst := Scatter(room, src, err);
      if n == 0 {
        assert src[..0] == [];
        NothingWritten();
        return m, 0;
      }
      Advance(n, nfree, iDst, was, src);
      dropped := Max(0, n - nfree);
    }

    /** The start of `cbuf_writer` and `cbuf_copier`: grow when there is not room enough, then
        apply the overwrite policy. */
    method MakeRoom(len: nat) returns (nfree: nat, room: nat)
      requires Valid() && len > 0
      modifies this
      ensures Valid() && (data == old(data) || fresh(data)) && SameSettings() && size >= old(size)
      ensures Replay() == old(Replay()) && Unread() == old(Unread())
      ensures used == old(used) && gotWrap == old(gotWrap) && Reused() == old(Reused())
      ensures nfree == size - used && room == Room(overwrite, maxsize, used, len)
      ensures size < maxsize ==> used + len <= size
    {
      hide CursorsOk, Tail, Dist;
      nfree := size - used;
      if len > nfree && size < maxsize {
        var grown := Grow(len - nfree);
        nfree := nfree + grown;
      }
      room := len;
      if overwrite == NoDrop {
        room := Min(len, size - used);
      } else if overwrite == WrapOnce {
        room := Min(len, size);
      }
    }

    lemma NothingWritten()
      requires Valid()
      ensures LastN(Unread() + [], size) == Unread() && LastN(All() + [], size) == All() && |All()| <= size
    {
      AllIsTail();
      assert Unread() + [] == Unread() && All() + [] == All();
    }

    /** The end of `cbuf_writer`: the cursors after n bytes were written. */
    method MoveCursors(n: nat, nfree: nat, iDst: nat)
      requires data.Length == size + 1 && alloc > size && 0 < minsize <= size <= maxsize
      requires (gotWrap || iRep == 0) && used <= size && iIn <= size && iOut <= size && iRep <= size
      requires CursorsOk(size, used, iRep, iOut, iIn)
      requires n > 0 && nfree == size - used && iDst <= size && (n <= size + 1 ==> iDst == Fwd(iIn, n, size + 1))
      modifies this`used, this`iIn, this`iOut, this`iRep, this`gotWrap
      ensures Valid() && iIn == iDst && used == Min(old(used) + n, size)
      ensures old(Reused()) + old(used) <= size && Reused() + used == Min(old(Reused()) + old(used) + n, size)
      ensures gotWrap == (old(gotWrap) || old(Reused()) + old(used) + n > size)
    {
      hide Mod, CursorsOk, Dist, Fwd, Back;
      CursorsIff(size, used, iRep, iOut, iIn);
      ghost var used0, rep0, out0, in0 := used, iRep, iOut, iIn;
      ModDist(iRep, iOut, size + 1);
      ModFwd(iDst, 1, size + 1);
      var nrepl := Mod(iOut - iRep + (size + 1), size + 1);
      used := Min(used + n, size);
      iIn := iDst;
      if n > nfree - nrepl {
        gotWrap := true;
        iRep := Mod(iIn + 1, size + 1);
      }
      if n > nfree {
        iOut := iRep;
      }
      AdvanceCounts(size, used0, rep0, out0, in0, iIn, n, used, iRep, iOut);
      CursorsIff(size, used, iRep, iOut, iIn);
    }

    /** What the buffer holds then. */
    method Advance(n: nat, nfree: nat, iDst: nat, ghost was: seq<Byte>, ghost src: seq<Byte>)
      requires data.Length == size + 1 == |was| && alloc > size && 0 < minsize <= size <= maxsize
      requires (gotWrap || iRep == 0) && used <= size && iIn <= size && iOut <= size && iRep <= size
      requires CursorsOk(size, used, iRep, iOut, iIn)
      requires 0 < n <= |src| && nfree == size - used && iDst <= size && Written(was, data[..], iIn, iDst, src, n)
      modifies this`used, this`iIn, this`iOut, this`iRep, this`gotWrap
      ensures Valid()
      ensures Unread() == LastN(Tail(was, old(iIn), old(used)) + src[..n], size)
      ensures old(Reused()) + old(used) <= size
      ensures All() == LastN(Tail(was, old(iIn), old(Reused()) + old(used)) + src[..n], size)
      ensures gotWrap == (old(gotWrap) || old(Reused()) + old(used) + n > size)
    {
      hide Mod, CursorsOk, Written, Tail, LastN, Dist, Fwd, Back, Cbuf.Replay, Cbuf.All, Cbuf.Reused;
      ghost var in0, unread, all := iIn, used, Reused() + used;
      WrittenEnd(was, data[..], in0, iDst, src, n);
      MoveCursors(n, nfree, iDst);
      AdvanceBytes(was, data[..], src, n, size, unread, in0, iIn, used);
      AdvanceBytes(was, data[..], src, n, size, all, in0, iIn, Reused() + used);
      AllIsTail();
    }

    /** The copy loop of `cbuf_writer`: chunks that end at the end of the array, until
        enough is written or the source comes up short. */
    method Scatter(room: nat, src: seq<Byte>, err: int) returns (n: nat, m: int, iDst: nat)
      requires data.Length == size + 1 && iIn <= size && err <= 0
      modifies data
      ensures n == Min(room, |src|) && iDst == Mod(iIn + n, size + 1)
      ensures n == 0 && room > 0 ==> m == err
      ensures Written(old(data[..]), data[..], iIn, iDst, src, n)
      ensures n == 0 ==> data[..] == old(data[..])
    {
      hide Mod, Written;
      ghost var was := data[..];
      iDst := iIn;
      var nleft := room;
      m := 0;
      WrittenStart(was, iIn, src);
      DivUnique(iIn, size + 1, 0, iIn);
      while nleft > 0
        invariant 0 <= nleft <= room && room - nleft <= |src| && (nleft == room > 0 ==> m == 0)
        invariant iDst <= size && iDst == Mod(iIn + (room - nleft), size + 1)
        invariant Written(was, data[..], iIn, iDst, src, room - nleft)
        invariant nleft == room ==> data[..] == was
      {
        var chunk := Min(nleft, size + 1 - iDst);
        var got := room - nleft;
        m := if got < |src| then Min(chunk, |src| - got) else err;
        if m > 0 {
          ghost var before := data[..];
          forall k | 0 <= k < m {
            data[iDst + k] := src[got + k];
          }
          WrittenStep(was, before, data[..], iIn, iDst, src, got, m);
          ModFwd(iDst, m, size + 1);
          ModAdd(iIn, got, m, size + 1);
          nleft := nleft - m;
          iDst := Mod(iDst + m, size + 1);
        }
        if chunk != m {
          break;
        }
      }
      n := room - nleft;
    }

    /** `cbuf_copier` into this buffer. When more is copied than the buffer holds, only the
        last bytes are moved; an empty buffer with nothing to replay is then filled without
        being marked as wrapped, where `cbuf_writer` would mark it. */
    method CopyFrom(source: Cbuf, len: nat) returns (n: int, dropped: nat)
      requires Valid() && source.Valid() && this != source && data != source.data && len > 0
      modifies this, data
      ensures Valid() && (data == old(data) || fresh(data)) && SameSettings() && size >= old(size)
      ensures source.data == old(source.data) && source.Valid() && source.Unread() == old(source.Unread())
      ensures var want := Min(len, source.used);
        var d := source.Unread()[..Room(overwrite, maxsize, old(used), want)];
        && n == (if want > 0 && |d| == 0 then -1 else |d|)
        && Unread() == LastN(old(Unread()) + d, size)
        && All() == LastN(old(All()) + d, size)
        && dropped == Max(0, old(used) + |d| - size)
        && gotWrap == (old(gotWrap) || (|d| > 0 && old(|All()|) + Min(|d|, size) > size))
    {
      hide Mod, CursorsOk, LastN, Tail, Dist, Written, Room, Back, Fwd;
      var want := Min(len, source.used);
      assert source.Unread()[..0] == [];
      if want == 0 {
        NothingWritten();
        return 0, 0;
      }
      var nfree, room := MakeRoom(want);
      if room == 0 {
        NothingWritten();
        return -1, 0;
      }
      source.AllIsTail();
      dropped := Max(0, room - size + used);
      CopyRoom(source, nfree, room);
      n := room;
    }

    /** The rest of it, once there is room as far as there can be. */
    method CopyRoom(source: Cbuf, nfree: nat, room: nat)
      requires Valid() && source.Valid() && data != source.data && nfree == size - used && 0 < room <= |source.Unread()|
      modifies this`used, this`iIn, this`iOut, this`iRep, this`gotWrap, data
      ensures Valid()
      ensures var d := source.Unread()[..room];
        && Unread() == LastN(old(Unread()) + d, size) && All() == LastN(old(All()) + d, size)
        && gotWrap == (old(gotWrap) || old(|All()|) + Min(room, size) > size)
      ensures source.Valid() && source.Unread() == old(source.Unread())
    {
      hide Mod, CursorsOk, LastN, Tail, Dist, Written, Back, Fwd, Cbuf.All, Cbuf.Replay, Cbuf.Reused;
      ghost var was, d, in0, u, r := data[..], source.Unread()[..room], iIn, used, Reused() + used;
      AllIsTail();
      source.AllIsTail();
      var ncopy := Min(room, size);
      var iDst := Transfer(source, room, ncopy);
      Advance(ncopy, nfree, iDst, was, d[room - ncopy..]);
      assert d[room - ncopy..][..ncopy] == d[room - ncopy..];
      LastNOfLast(Tail(was, in0, u), d, ncopy, size);
      LastNOfLast(Tail(was, in0, r), d, ncopy, size);
    }

    /** The copy loop of `cbuf_copier`: the last ncopy of the first room unread bytes, in
        chunks that end at the end of either array. */
    method Transfer(source: Cbuf, room: nat, ncopy: nat) returns (iDst: nat)
      requires source.Valid() && data.Length == size + 1 && iIn <= size && data != source.data
      requires 0 < ncopy <= room <= source.used
      modifies data
      ensures iDst <= size && iDst == Mod(iIn + ncopy, size + 1)
      ensures Written(old(data[..]), data[..], iIn, iDst, source.Unread()[..room][room - ncopy..], ncopy)
      ensures source.Unread() == old(source.Unread())
    {
      hide Mod, Written, CursorsOk, Tail, Back, Fwd, Dist;
      ghost var was, all := data[..], source.Unread();
      ghost var d := all[..room][room - ncopy..];
      CursorsIff(source.size, source.used, source.iRep, source.iOut, source.iIn);
      DistBack(source.iOut, source.iIn, source.size + 1);
      SkipIndex(source.iIn, source.used, room - ncopy, source.size + 1);
      ModFwd(source.iOut, room - ncopy, source.size + 1);
      var iSrc := Mod(source.iOut + (room - ncopy), source.size + 1);
      iDst := iIn;
      var nleft := ncopy;
      WrittenStart(was, iIn, d);
      DivUnique(iIn, size + 1, 0, iIn);
      while nleft > 0
        invariant 0 <= nleft <= ncopy && iDst <= size && iDst == Mod(iIn + (ncopy - nleft), size + 1)
        invariant iSrc == Back(source.iIn, source.used - (room - nleft), source.size + 1)
        invariant Written(was, data[..], iIn, iDst, d, ncopy - nleft)
        invariant source.data[..] == old(source.data[..])
      {
        var m := Min(Min(source.size + 1 - iSrc, size + 1 - iDst), nleft);
        ghost var got, before := ncopy - nleft, data[..];
        GatherChunk(source.data[..], source.iIn, source.used, room - nleft, iSrc, m);
        ChunkOf(all, source.data[..], room, ncopy, got, iSrc, m);
        CopyChunk(source, iSrc, iDst, m);
        WrittenStep(was, before, data[..], iIn, iDst, d, got, m);
        ModFwd(iDst, m, size + 1);
        ModAdd(iIn, got, m, size + 1);
        ModFwd(iSrc, m, source.size + 1);
        iSrc := Mod(iSrc + m, source.size + 1);
        iDst := Mod(iDst + m, size + 1);
        nleft := nleft - m;
      }
    }

    /** memcpy between the two arrays. */
    method CopyChunk(source: Cbuf, from: nat, to: nat, m: nat)
      requires data != source.data && from + m <= source.data.Length && to + m <= data.Length
      modifies data
      ensures forall i :: 0 <= i < data.Length ==>
        data[..][i] == if to <= i < to + m then source.data[..][from + i - to] else old(data[..])[i]
    {
      forall k | 0 <= k < m {
        data[to + k] := source.data[from + k];
      }
    }

    // ---- Public operations

    /** `cbuf_write` */
    method Write(src: seq<Byte>) returns (n: int, dropped: nat)
      requires Valid()
      modifies this, data
      ensures Valid() && (data == old(data) || fresh(data)) && SameSettings() && size >= old(size)
      ensures var d := src[..Room(overwrite, maxsize, old(used), |src|)];
        && n == (if |src| > 0 && |d| == 0 then -1 else |d|)
        && Unread() == LastN(old(Unread()) + d, maxsize)
        && All() == LastN(old(All()) + d, size)
        && dropped == Max(0, old(used) + |d| - maxsize)
    {
      hide Mod, CursorsOk, Tail, Dist;
      if |src| == 0 {
        NothingWritten();
        assert src[..0] == [];
        LastNGrown(Unread(), size, maxsize);
        return 0, 0;
      }
      n, dropped := Writer(|src|, src, 0);
      LastNGrown(old(Unread()) + src[..Room(overwrite, maxsize, old(used), |src|)], size, maxsize);
    }

    /** `cbuf_read` */
    method Read(len: nat) returns (n: int, out: seq<Byte>)
      requires Valid()
      modifies this`used, this`iOut
      ensures Valid() && data[..] == old(data[..])
      ensures out == old(Unread())[..Min(len, old(used))] && n == |out|
      ensures Unread() == old(Unread())[|out|..] && Replay() == old(Replay()) + out
    {
      if len == 0 {
        return 0, [];
      }
      n, out := Reader(len, len, 0);
      if n > 0 {
        Dropper(n);
      }
    }

    /** `cbuf_peek` */
    method Peek(len: nat) returns (n: int, out: seq<Byte>)
      requires Valid()
      ensures out == Unread()[..Min(len, used)] && n == |out|
    {
      if len == 0 {
        return 0, [];
      }
      n, out := Reader(len, len, 0);
    }

    /** `cbuf_drop`: -1 drops everything, and a smaller length is an error. */
    method Drop(len: int) returns (n: int)
      requires Valid()
      modifies this`used, this`iOut
      ensures Valid() && data[..] == old(data[..])
      ensures len < -1 ==> n == -1 && Unread() == old(Unread()) && Replay() == old(Replay())
      ensures len >= -1 ==> n == if len == -1 then old(used) else Min(len, old(used))
      ensures len >= -1 ==> Unread() == old(Unread())[n..] && Replay() == old(Replay()) + old(Unread())[..n]
    {
      if len < -1 {
        return -1;
      }
      if len == 0 {
        return 0;
      }
      n := if len == -1 then used else Min(len, used);
      if n > 0 {
        Dropper(n);
      }
    }

    /** `cbuf_replay` */
    method ReplayBytes(len: nat) returns (n: int, out: seq<Byte>)
      requires Valid()
      ensures out == LastN(Replay(), len) && n == |out|
    {
      if len == 0 {
        assert Replay()[|Replay()|..] == [];
        return 0, [];
      }
      n, out := Replayer(len, len, 0);
    }

    /** `cbuf_rewind`: the newest replay bytes become unread again. */
    method Rewind(len: int) returns (n: int)
      requires Valid()
      modifies this`used, this`iOut
      ensures Valid() && data[..] == old(data[..])
      ensures len < -1 ==> n == -1 && Unread() == old(Unread()) && Replay() == old(Replay())
      ensures len >= -1 ==> n == if len == -1 then |old(Replay())| else Min(len, |old(Replay())|)
      ensures len >= -1 ==> var keep := |old(Replay())| - n;
        Replay() == old(Replay())[..keep] && Unread() == old(Replay())[keep..] + old(Unread())
    {
      hide Mod, CursorsOk, Tail, Dist, Back;
      if len < -1 {
        return -1;
      }
      if len == 0 {
        return 0;
      }
      AllIsTail();
      ghost var all := All();
      ModDist(iRep, iOut, size + 1);
      var reused := Mod(iOut - iRep + (size + 1), size + 1);
      n := if len == -1 then reused else Min(len, reused);
      if n > 0 {
        ModBack(iOut, n, size + 1);
        RewindCursors(size, used, iRep, iOut, iIn, n);
        used := used + n;
        iOut := Mod(iOut - n + (size + 1), size + 1);
        CursorsIff(size, used, iRep, iOut, iIn);
        AllIsTail();
        SplitAgain(all, old(Replay()), old(Unread()), Replay(), Unread(), n);
      }
    }
  }

  /** How many bytes of a write the policy lets through. It depends on the maximum size
      alone: a buffer that can still grow does so first. */
  function Room(overwrite: Overwrite, maxsize: nat, used: nat, len: nat): (n: nat)
    requires used <= maxsize
    ensures n <= len
  {
    match overwrite
    case NoDrop => Min(len, maxsize - used)
    case WrapOnce => Min(len, maxsize)
    case WrapMany => len
  }

  /** The copy-out loop shared by `cbuf_reader` and `cbuf_replayer`: `want` bytes from index
      `from`, where `len` bytes end before index `end`. */
  method Gather(data: array<Byte>, from: nat, end: nat, ghost len: nat, want: nat, accepts: nat, err: int)
    returns (n: int, out: seq<Byte>)
    requires end < data.Length && 0 < want <= len <= data.Length && from == Back(end, len, data.Length)
    requires len < data.Length && err <= 0
    ensures out == Tail(data[..], end, len)[..Min(want, accepts)]
    ensures n == if |out| > 0 then |out| else err
  {
    ghost var all := Tail(data[..], end, len);
    var iSrc, nleft, m := from, want, 0;
    out := [];
    while nleft > 0
      invariant 0 <= nleft <= want && |out| == want - nleft <= accepts
      invariant out == all[..|out|] && iSrc == Back(end, len - |out|, data.Length)
    {
      var chunk := Min(nleft, data.Length - iSrc);
      m := if |out| < accepts then Min(chunk, accepts - |out|) else err;
      if m > 0 {
        GatherChunk(data[..], end, len, |out|, iSrc, m);
        ModFwd(iSrc, m, data.Length);
        out := out + data[iSrc..iSrc + m];
        nleft := nleft - m;
        iSrc := Mod(iSrc + m, data.Length);
      }
      if chunk != m {
        break;
      }
    }
    n := if |out| == 0 then m else |out|;
  }

  /** `cbuf_create`: a minimum size that is not positive is an invalid argument. */
  method Create(minsize: int, maxsize: int, cookies: nat) returns (cb: Cbuf?)
    ensures cb == null <==> minsize <= 0
    ensures cb != null ==> fresh(cb) && fresh(cb.data) && cb.Valid() && cb.Unread() == [] && cb.Replay() == []
    ensures cb != null ==> cb.maxsize == Max(maxsize, minsize) && cb.overwrite == WrapMany
  {
    if minsize <= 0 {
      return null;
    }
    cb := new Cbuf(minsize, maxsize, cookies);
  }

  /** What lies before the new end after n bytes were written. */
  lemma AdvanceBytes(was: seq<Byte>, now: seq<Byte>, src: seq<Byte>, n: nat, size: nat, len: nat, in0: nat, in': nat, len': nat)
    requires |was| == size + 1 && 0 < n <= |src| && Written(was, now, in0, in', src, n)
    requires in0 <= size && len <= size && len' == (if len + n <= size then len + n else size)
    ensures |now| == size + 1 && in' <= size && len' <= size
    ensures Tail(now, in', len') == LastN(Tail(was, in0, len) + src[..n], size)
  {
    WrittenTail(was, now, in0, in', src, n, len);
    WrittenEnd(was, now, in0, in', src, n);
  }

  /** Where the cursors stand after n bytes were written up to index in': nothing has been
      overwritten, or replay bytes only, or unread bytes as well. */
  lemma AdvanceCounts(size: nat, used: nat, rep: nat, out: nat, in0: nat, in': nat, n: nat, used': nat, rep': nat, out': nat)
    requires rep <= size && out <= size && in0 <= size && in' <= size && used <= size && n > 0
    requires used == Dist(out, in0, size + 1) && Dist(rep, out, size + 1) + used <= size
    requires n <= size + 1 ==> in' == Fwd(in0, n, size + 1)
    requires rep' == if n > size - used - Dist(rep, out, size + 1) then Fwd(in', 1, size + 1) else rep
    requires out' == if n > size - used then rep' else out
    requires used' == if used + n <= size then used + n else size
    ensures var reused := Dist(rep, out, size + 1);
      && rep' <= size && out' <= size && used' == Dist(out', in', size + 1)
      && Dist(rep', out', size + 1) + used' == if reused + used + n <= size then reused + used + n else size
  {
    hide Dist, Fwd;
    AdvanceCursors(size, used, rep, out, in0, in', n);
    var reused := Dist(rep, out, size + 1);
    if n <= size - used - reused {
      assert rep' == rep && out' == out;
    } else if n <= size - used {
      assert out' == out;
    } else {
      assert out' == rep';
    }
  }

  lemma WrittenEnd(was: seq<Byte>, now: seq<Byte>, start: nat, end: nat, src: seq<Byte>, n: nat)
    requires Written(was, now, start, end, src, n)
    ensures |now| == |was| && end < |was| && (n <= |was| ==> end == Fwd(start, n, |was|))
  {
  }

  lemma AdvanceCursors(size: nat, used: nat, rep: nat, out: nat, in0: nat, in': nat, n: nat)
    requires rep <= size && out <= size && in0 <= size && in' <= size && used <= size && n > 0
    requires used == Dist(out, in0, size + 1) && Dist(rep, out, size + 1) + used <= size
    requires n <= size + 1 ==> in' == Fwd(in0, n, size + 1)
    ensures var reused, next := Dist(rep, out, size + 1), Fwd(in', 1, size + 1);
      && (n <= size - used - reused ==> Dist(out, in', size + 1) == used + n)
      && (size - used - reused < n <= size - used ==> Dist(out, in', size + 1) == used + n
                                                      && Dist(next, out, size + 1) == size - used - n)
      && next <= size && Dist(next, in', size + 1) == size && Dist(next, next, size + 1) == 0
  {
  }

  lemma DropCursors(size: nat, used: nat, rep: nat, out: nat, in': nat, n: nat)
    requires rep <= size && out <= size && in' <= size && n <= used
    requires used == Dist(out, in', size + 1) && Dist(rep, out, size + 1) + used <= size
    ensures var out' := Fwd(out, n, size + 1);
      used - n == Dist(out', in', size + 1) && Dist(rep, out', size + 1) == Dist(rep, out, size + 1) + n
  {
  }

  lemma SkipIndex(in': nat, used: nat, skip: nat, n: nat)
    requires in' < n && skip <= used < n
    ensures Fwd(Back(in', used, n), skip, n) == Back(in', used - skip, n)
  {
  }

  /** A chunk of the source array is a chunk of what is to be copied. */
  lemma ChunkOf(all: seq<Byte>, data: seq<Byte>, room: nat, ncopy: nat, got: nat, i: nat, m: nat)
    requires ncopy <= room <= |all| && got + m <= ncopy && i + m <= |data|
    requires all[..room - ncopy + got + m] == all[..room - ncopy + got] + data[i..i + m]
    ensures var d := all[..room][room - ncopy..];
      |d| == ncopy && forall q :: got <= q < got + m ==> d[q] == data[i + q - got]
  {
    var d := all[..room][room - ncopy..];
    forall q | got <= q < got + m
      ensures d[q] == data[i + q - got]
    {
      assert all[..room - ncopy + got + m][room - ncopy + q] == data[i..i + m][q - got];
    }
  }

  /** Only the last bytes of what is appended matter once they fill the bound. */
  lemma LastNOfLast(a: seq<Byte>, d: seq<Byte>, n: nat, size: nat)
    requires n == Min(|d|, size)
    ensures LastN(a + d[|d| - n..], size) == LastN(a + d, size)
  {
    assert n == |d| ==> d[0..] == d;
  }

  lemma RewindCursors(size: nat, used: nat, rep: nat, out: nat, in': nat, n: nat)
    requires rep <= size && out <= size && in' <= size
    requires used == Dist(out, in', size + 1) && Dist(rep, out, size + 1) + used <= size
    requires n <= Dist(rep, out, size + 1)
    ensures var out' := Back(out, n, size + 1);
      used + n == Dist(out', in', size + 1) && Dist(rep, out', size + 1) == Dist(rep, out, size + 1) - n
  {
  }

  lemma SplitAgain(all: seq<Byte>, r: seq<Byte>, u: seq<Byte>, r': seq<Byte>, u': seq<Byte>, n: nat)
    requires all == r + u && all == r' + u' && n <= |r| && |r'| == |r| - n
    ensures r' == r[..|r| - n] && u' == r[|r| - n..] + u
  {
    assert r' == all[..|r'|] && u' == all[|r'|..];
  }

  /** Below the maximum size nothing is lost, so the bound is the maximum size. */
  lemma LastNGrown(s: seq<Byte>, size: nat, maxsize: nat)
    requires size <= maxsize && (size < maxsize ==> |s| <= size)
    ensures LastN(s, size) == LastN(s, maxsize)
  {
  }

  // ---- Growth cannot be observed

  datatype Op = Write(bytes: seq<Byte>) | Read(n: nat) | Peek(n: nat) | Drop(len: int)

  datatype Seen = Seen(ret: int, out: seq<Byte>, dropped: nat)

  /** One operation on the unread bytes of a buffer of one fixed size. */
  function Step(unread: seq<Byte>, maxsize: nat, overwrite: Overwrite, op: Op): (r: (seq<Byte>, Seen))
    requires |unread| <= maxsize
    ensures |r.0| <= maxsize
  {
    match op
    case Write(bytes) =>
      var d := bytes[..Room(overwrite, maxsize, |unread|, |bytes|)];
      (LastN(unread + d, maxsize), Seen(if |bytes| > 0 && |d| == 0 then -1 else |d|, [], Max(0, |unread| + |d| - maxsize)))
    case Read(n) =>
      var k := Min(n, |unread|);
      (unread[k..], Seen(k, unread[..k], 0))
    case Peek(n) =>
      var k := Min(n, |unread|);
      (unread, Seen(k, unread[..k], 0))
    case Drop(len) =>
      if len < -1 then (unread, Seen(-1, [], 0))
      else
        var k := if len == -1 then |unread| else Min(len, |unread|);
        (unread[k..], Seen(k, [], 0))
  }

  function Steps(unread: seq<Byte>, maxsize: nat, overwrite: Overwrite, ops: seq<Op>): (r: (seq<Byte>, seq<Seen>))
    requires |unread| <= maxsize
    decreases |ops|
  {
    if |ops| == 0 then (unread, [])
    else
      var (next, seen) := Step(unread, maxsize, overwrite, ops[0]);
      var (last, more) := Steps(next, maxsize, overwrite, ops[1..]);
      (last, [seen] + more)
  }

  lemma {:induction false} StepsSnoc(unread: seq<Byte>, maxsize: nat, overwrite: Overwrite, ops: seq<Op>, op: Op)
    requires |unread| <= maxsize
    ensures var (u, seen) := Steps(unread, maxsize, overwrite, ops);
      && |u| <= maxsize
      && Steps(unread, maxsize, overwrite, ops + [op])
         == (Step(u, maxsize, overwrite, op).0, seen + [Step(u, maxsize, overwrite, op).1])
    decreases |ops|
  {
    if |ops| == 0 {
      assert ops + [op] == [op] && [op][1..] == [];
      var (next, seen) := Step(unread, maxsize, overwrite, op);
      assert Steps(next, maxsize, overwrite, []) == (next, []);
      assert [seen] + [] == [] + [seen];
    } else {
      hide Step;
      assert (ops + [op])[1..] == ops[1..] + [op] && (ops + [op])[0] == ops[0];
      var (next, seen) := Step(unread, maxsize, overwrite, ops[0]);
      StepsSnoc(next, maxsize, overwrite, ops[1..], op);
      var (u, more) := Steps(next, maxsize, overwrite, ops[1..]);
      assert [seen] + (more + [Step(u, maxsize, overwrite, op).1]) == ([seen] + more) + [Step(u, maxsize, overwrite, op).1];
    }
  }

  /** Each operation of a growing buffer shows what the buffer of fixed size shows. */
  method Apply(cb: Cbuf, op: Op) returns (seen: Seen)
    requires cb.Valid()
    modifies cb, cb.data
    ensures cb.Valid() && (cb.data == old(cb.data) || fresh(cb.data)) && cb.SameSettings()
    ensures |old(cb.Unread())| <= cb.maxsize
    ensures (cb.Unread(), seen) == Step(old(cb.Unread()), cb.maxsize, cb.overwrite, op)
  {
    hide CursorsOk, Tail, Dist, LastN;
    match op
    case Write(bytes) =>
      var n, dropped := cb.Write(bytes);
      seen := Seen(n, [], dropped);
    case Read(n) =>
      var k, out := cb.Read(n);
      seen := Seen(k, out, 0);
    case Peek(n) =>
      var k, out := cb.Peek(n);
      seen := Seen(k, out, 0);
    case Drop(len) =>
      var k := cb.Drop(len);
      seen := Seen(k, [], 0);
  }

  method Run(cb: Cbuf, ops: seq<Op>) returns (seen: seq<Seen>)
    requires cb.Valid()
    modifies cb, cb.data
    ensures cb.Valid() && (cb.data == old(cb.data) || fresh(cb.data)) && cb.SameSettings()
    ensures |old(cb.Unread())| <= cb.maxsize
    ensures (cb.Unread(), seen) == Steps(old(cb.Unread()), cb.maxsize, cb.overwrite, ops)
  {
    hide CursorsOk, Tail, Dist, LastN, Step, Steps;
    seen := [];
    ghost var u0 := cb.Unread();
    StepsNone(u0, cb.maxsize, cb.overwrite);
    assert ops[..0] == [];
    for i := 0 to |ops|
      invariant cb.Valid() && (cb.data == old(cb.data) || fresh(cb.data)) && cb.SameSettings()
      invariant |u0| <= cb.maxsize && (cb.Unread(), seen) == Steps(u0, cb.maxsize, cb.overwrite, ops[..i])
    {
      StepsSnoc(u0, cb.maxsize, cb.overwrite, ops[..i], ops[i]);
      assert ops[..i] + [ops[i]] == ops[..i + 1];
      var one := Apply(cb, ops[i]);
      seen := seen + [one];
    }
    assert ops[..|ops|] == ops;
  }

  lemma StepsNone(unread: seq<Byte>, maxsize: nat, overwrite: Overwrite)
    requires |unread| <= maxsize
    ensures Steps(unread, maxsize, overwrite, []) == (unread, [])
  {
  }

  /** Two buffers with one maximum size, one of them already at it, cannot be told apart by
      any sequence of writes, reads, peeks and drops: both show what the abstract one does. */
  method Lockstep(growing: Cbuf, fixed: Cbuf, ops: seq<Op>) returns (seenGrowing: seq<Seen>, seenFixed: seq<Seen>)
    requires growing.Valid() && fixed.Valid() && growing != fixed && growing.data != fixed.data
    requires growing.maxsize == fixed.maxsize == fixed.size && growing.overwrite == fixed.overwrite
    requires growing.Unread() == fixed.Unread()
    modifies growing, growing.data, fixed, fixed.data
    ensures growing.Valid() && fixed.Valid() && growing.maxsize == old(growing.maxsize) && growing.overwrite == old(growing.overwrite)
    ensures |old(growing.Unread())| <= growing.maxsize
    ensures (growing.Unread(), seenGrowing) == Steps(old(growing.Unread()), growing.maxsize, growing.overwrite, ops)
    ensures seenGrowing == seenFixed && growing.Unread() == fixed.Unread()
  {
    hide CursorsOk, Tail, Dist, Step, Steps;
    seenGrowing := Run(growing, ops);
    seenFixed := Run(fixed, ops);
  }

  lemma GatherChunk(data: seq<Byte>, end: nat, len: nat, k: nat, i: nat, m: nat)
    requires end < |data| && k + m <= len < |data| && i == Back(end, len - k, |data|) && i + m <= |data|
    ensures Tail(data, end, len)[..k + m] == Tail(data, end, len)[..k] + data[i..i + m]
    ensures Fwd(i, m, |data|) == Back(end, len - (k + m), |data|)
  {
    forall q | k <= q < k + m
      ensures Tail(data, end, len)[q] == data[i + q - k]
    {
      assert Back(end, len - q, |data|) == i + q - k;
    }
  }

  /** The old bytes after growth: the wrapped part, from rep on, at the new end. */
  predicate Relocated(was: seq<Byte>, now: seq<Byte>, rep: nat, end: nat) {
    && |was| <= |now|
    && (forall i :: 0 <= i < |was| && (rep <= end || i < rep) ==> now[i] == was[i])
    && (rep > end ==> forall i :: rep <= i < |was| ==> now[i + |now| - |was|] == was[i])
  }

  lemma RelocatedNow(was: seq<Byte>, before: seq<Byte>, now: seq<Byte>, rep: nat, end: nat)
    requires |was| <= |before| == |now| && before[..|was|] == was && rep <= |was|
    requires rep <= end ==> now == before
    requires rep > end ==> forall i :: 0 <= i < |now| ==>
      now[i] == if i < |now| - (|was| - rep) then before[i] else was[i - (|now| - |was|)]
    ensures Relocated(was, now, rep, end)
  {
    forall i | 0 <= i < |was|
      ensures before[i] == was[i]
    {
      assert before[..|was|][i] == was[i];
    }
  }

  /** Growth does not change the bytes before the in cursor: those that wrap around moved
      with the end of the array. */
  lemma GrownTail(was: seq<Byte>, now: seq<Byte>, end: nat, len: nat, rep: nat)
    requires Relocated(was, now, rep, end) && end < |was| && rep < |was| && len <= Dist(rep, end, |was|)
    ensures Tail(now, end, len) == Tail(was, end, len)
  {
    forall k | 1 <= k <= len
      ensures now[Back(end, k, |now|)] == was[Back(end, k, |was|)]
    {
      if k > end {
        assert Back(end, k, |now|) == Back(end, k, |was|) + |now| - |was|;
      }
    }
    forall k | 0 <= k < len
      ensures Tail(now, end, len)[k] == Tail(was, end, len)[k]
    {
    }
  }

  lemma GrownOut(was: seq<Byte>, now: seq<Byte>, end: nat, out: nat, out': nat, rep: nat, rep': nat, len: nat)
    requires Relocated(was, now, rep, end) && end < |was| && rep < |was| && out < |was|
    requires len == Dist(rep, out, |was|) <= Dist(rep, end, |was|)
    requires rep' == if rep > end then rep + |now| - |was| else rep
    requires out' == if rep > end && out >= rep then out + |now| - |was| else out
    ensures out' < |now| && rep' < |now| && Dist(rep', out', |now|) == len
    ensures Dist(out, end, |was|) + len == Dist(rep, end, |was|) ==> Dist(out', end, |now|) == Dist(out, end, |was|)
    ensures Tail(now, out', len) == Tail(was, out, len)
  {
    forall k | 0 <= k < len
      ensures Tail(now, out', len)[k] == Tail(was, out, len)[k]
    {
      var i, j := Back(out', len - k, |now|), Back(out, len - k, |was|);
      assert i == if rep > end && j >= rep then j + |now| - |was| else j;
    }
  }
}
