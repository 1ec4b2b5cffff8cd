/** A stand-in for the library's bytes buffer, which the repository only calls.  Its fields are
    the ones the session sets up; its methods carry the contract that the session relies on.
    The ring jumps back to the front before the physical end when a contiguous stretch does not
    fit, so a frame may lie in two pieces and both delivery paths of the session are live. */
module BytesBuffers {
  import opened Wire

  const UNIT: nat := 64 * 1024  // NET_BENCH_TCP_RECV_UNIT_SIZE

  datatype Option<+T> = None | Some(value: T)

  /** The positions of a ring of `c` bytes that can occur. */
  predicate PositionsOk(c: nat, w: nat, r: nat, t: nat)
  {
    r <= c && w <= c && (w < r ==> r <= t <= c < t + UNIT)
  }

  /** How many bytes such a ring holds. */
  function Held(w: nat, r: nat, t: nat): (n: int)
  {
    if r <= w then w - r else t - r + w
  }

  /** `n` bytes may be stored at position `p` without touching readable ones. */
  predicate RoomAt(c: nat, w: nat, r: nat, p: nat, n: nat)
  {
    if p == w then (if r <= w then w + n <= c else w + n < r)
    else p == 0 && r <= w && n < r && c < w + n
  }

  lemma HasRoom(c: nat, w: nat, r: nat, t: nat) returns (p: nat)
    requires PositionsOk(c, w, r, t) && Held(w, r, t) + 2 * UNIT <= c
    ensures RoomAt(c, w, r, p, UNIT)
  {
    p := if RoomAt(c, w, r, w, UNIT) then w else 0;
  }

  /** Rings that always have a stretch of UNIT bytes while they hold fewer than `len`. */
  ghost predicate NeverFull(c: nat, len: nat)
  {
    forall w, r, t: nat | PositionsOk(c, w, r, t) && Held(w, r, t) < len :: exists p: nat :: RoomAt(c, w, r, p, UNIT)
  }

  /** The exact threshold of this ring: two units to spare, and not one byte less. */
  lemma NeverFullIff(c: nat, len: nat)
    requires len >= 1
    ensures NeverFull(c, len) <==> len + 2 * UNIT <= c + 1
  {
    if len + 2 * UNIT <= c + 1 {
      forall w, r, t: nat | PositionsOk(c, w, r, t) && Held(w, r, t) < len
        ensures exists p: nat :: RoomAt(c, w, r, p, UNIT)
      {
        var p := HasRoom(c, w, r, t);
      }
    } else {
      // the reader has consumed one unit, the writer is one byte beyond the last stretch
      var w := if c < UNIT then 0 else c - UNIT + 1;
      var r := if w < UNIT then w else UNIT;
      assert PositionsOk(c, w, r, c) && Held(w, r, c) < len;
      assert forall p: nat :: !RoomAt(c, w, r, p, UNIT);
    }
  }

  class BytesBuffer {
    const buffer: array<byte>
    const c: nat  // capacity
    var w: nat    // write position
    var r: nat    // read position
    var t: nat    // where the readable bytes end before the jump to the front

    ghost predicate Valid()
      reads this
    {
      buffer.Length == c && PositionsOk(c, w, r, t)
    }

    ghost function Contents(): (s: Bytes)
      reads this, buffer
      requires Valid()
    {
      if r <= w then buffer[r..w] else buffer[r..t] + buffer[..w]
    }

    predicate Room(p: nat, n: nat)
      reads this
    {
      RoomAt(c, w, r, p, n)
    }

    constructor (capacity: nat)
      ensures Valid() && Contents() == [] && c == capacity && fresh(buffer)
    {
      buffer := new byte[capacity];
      c := capacity;
      w, r, t := 0, 0, capacity;
    }

    /** Find a contiguous stretch for `n` bytes; nothing is claimed yet. */
    method WriterFc(n: nat) returns (p: Option<nat>)
      requires Valid()
      ensures p.Some? ==> Room(p.value, n)
      ensures p.None? ==> forall q: nat :: !Room(q, n)
    {
      if Room(w, n) {
        p := Some(w);
      } else if Room(0, n) {
        p := Some(0);
      } else {
        p := None;
      }
    }

    /** Claim the first `n` bytes of a stretch found for UNIT bytes. */
    method WriterMoveN(p: nat, n: nat) returns (ok: bool)
      requires Valid() && Room(p, UNIT) && n <= UNIT
      modifies this
      ensures ok && Valid()
      ensures buffer[..] == old(buffer[..])
      ensures p + n <= c && Contents() == old(Contents()) + buffer[p..p + n]
    {
      if p == w {
        Joins(buffer[..], if r <= w then r else 0, w, w + n);
        assert r > w ==> buffer[r..t] + (buffer[..w] + buffer[w..w + n]) == Contents() + buffer[w..w + n];
        w := w + n;
      } else {
        t, w := w, n;
      }
      ok := true;
    }

    static lemma Joins(s: Bytes, a: nat, b: nat, d: nat)
      requires a <= b <= d <= |s|
      ensures s[a..b] + s[b..d] == s[a..d]
    {
    }

    /** Copy the first `n` readable bytes without consuming them. */
    method Fetch(n: nat) returns (ok: bool, dst: Bytes)
      requires Valid()
      ensures ok <==> n <= |Contents()|
      ensures ok ==> dst == Contents()[..n]
    {
      ok, dst := false, [];
      var readable := Readable();
      if n <= readable {
        ok := true;
        if r <= w || n <= t - r {
          dst := buffer[r..r + n];
        } else {
          dst := buffer[r..t] + buffer[..n - (t - r)];
        }
      }
    }

    method Readable() returns (n: nat)
      requires Valid()
      ensures n == |Contents()|
    {
      n := if r <= w then w - r else t - r + w;
    }

    /** The position of `n` contiguous readable bytes, if the next `n` bytes lie in one piece. */
    method ReaderFc(n: nat) returns (p: Option<nat>)
      requires Valid()
      ensures p.Some? ==> p.value + n <= c && n <= |Contents()| && buffer[p.value..p.value + n] == Contents()[..n]
    {
      if n <= (if r <= w then w else t) - r {
        p := Some(r);
      } else {
        p := None;
      }
    }

    method ReaderMove(n: nat) returns (ok: bool)
      requires Valid()
      modifies this
      ensures Valid() && buffer[..] == old(buffer[..])
      ensures ok <==> n <= |old(Contents())|
      ensures Contents() == if ok then old(Contents())[n..] else old(Contents())
    {
      var readable := Readable();
      ok := n <= readable;
      if ok {
        if r <= w || n < t - r {
          r := r + n;
        } else {
          r, t := n - (t - r), c;
        }
      }
    }

    /** Copy out and consume. */
    method Read(n: nat) returns (ok: bool, dst: Bytes)
      requires Valid()
      modifies this
      ensures Valid() && buffer[..] == old(buffer[..])
      ensures ok <==> n <= |old(Contents())|
      ensures ok ==> dst == old(Contents())[..n] && Contents() == old(Contents())[n..]
      ensures !ok ==> Contents() == old(Contents())
    {
      ok, dst := Fetch(n);
      if ok {
        var moved := ReaderMove(n);
      }
    }

    /** Whatever the positions, a ring with two spare units always has a stretch of UNIT bytes. */
    lemma RoomForUnit()
      requires Valid() && |Contents()| + 2 * UNIT <= c
      ensures exists p: nat :: Room(p, UNIT)
    {
      var p := HasRoom(c, w, r, t);
      assert Room(p, UNIT);
    }
  }
}
