/** Arithmetic of the packet rings: free-running 8-bit counters, the slot a
    counter value designates, and why the slot count must divide 256. */
module Ring {
  import opened DapTypes

  /** `++counter` on a `uint8_t`: wraps from 255 to 0. */
  function Inc(x: U8): (y: U8)
    ensures y == if x == 255 then 0 else x + 1
  {
    (x + 1) % 0x100
  }

  /** The number of packets between the read and the write counter:
      `(uint8_t)(wp - rp)`, the number of increments that take `rp` to `wp`. */
  function Occupancy(wp: U8, rp: U8): (n: nat)
    ensures n < 0x100
    ensures (rp + n) % 0x100 == wp
  {
    (wp - rp) % 0x100
  }

  /** A slot count the rings can use: positive and dividing 256, so that slot
      indices stay consistent while the 8-bit counters wrap. */
  ghost predicate PacketCount(c: int)
  {
    0 < c && Mod(0x100, c) == 0
  }

  /** `x % c` on naturals, the slot index a counter value designates. Written
      by recursion so that its link with `%` is used only where a proof asks
      for it (ModIsRemainder). */
  function Mod(x: nat, c: nat): (r: nat)
    requires 0 < c
    ensures r < c
    decreases x
  {
    if x < c then x else Mod(x - c, c)
  }

  /** The slot that holds the k-th packet after read counter `rp`:
      the counter value `rp + k` (as a `uint8_t`) modulo the slot count. */
  function PendingSlot(rp: U8, k: nat, c: nat): (s: nat)
    requires 0 < c
    ensures s < c
  {
    Mod((rp + k) % 0x100, c)
  }

  /** Distance of slot `s` from the read counter's slot, going forward round
      the ring: `(s - rp) mod c`, with 256 added to keep the operand natural
      (which changes nothing when c divides 256). */
  function RingPos(s: nat, rp: U8, c: nat): (k: nat)
    requires 0 < c
    ensures k < c
  {
    Mod(s + 0x100 - rp, c)
  }

  /** The step of the scan index `n` in the acquire loop:
      `++n; if (n == DAP_PACKET_COUNT) n = 0U;`. */
  function ScanNext(n: nat, c: nat): (m: nat)
    requires n < c
    ensures m < c && m == (n + 1) % c
  {
    if n + 1 == c then 0 else n + 1
  }

  // ---------------------------------------------------------------- modular helpers

  /** Euclidean division is unique: the remainder of any decomposition
      `x == q * c + r` with `0 <= r < c` is `x % c`. */
  lemma ModUnique(x: int, c: int, q: int, r: int)
    requires 0 < c && 0 <= r < c && x == q * c + r
    ensures x % c == r
  {
    var k, m := x / c, x % c;
    assert x == k * c + m;
    var d := q - k;
    MulDistributes(q, k, c);
    assert d * c == m - r;
    if d > 0 {
      MulAtLeast(d, c);
    } else if d < 0 {
      MulAtLeast(-d, c);
      MulNeg(d, c);
    }
  }

  /** Mod is the remainder of Euclidean division. */
  lemma {:induction false} ModIsRemainder(x: nat, c: nat)
    requires 0 < c
    ensures Mod(x, c) == x % c
  {
    if x >= c {
      ModIsRemainder(x - c, c);
      var q := (x - c) / c;
      assert x - c == q * c + (x - c) % c;
      assert x == (q + 1) * c + (x - c) % c;
      ModUnique(x, c, q + 1, (x - c) % c);
    }
  }

  /** A packet count divides 256. */
  lemma PacketCountDivides(c: int)
    requires PacketCount(c)
    ensures 0x100 == (0x100 / c) * c && c <= 0x100
  {
    ModIsRemainder(0x100, c);
    if c > 0x100 {
      ModUnique(0x100, c, 0, 0x100);
    }
  }

  /** A slot count dividing 256 in C's sense (`256 % c == 0`) is a packet count. */
  lemma PacketCountOf(c: int)
    requires 0 < c && 0x100 % c == 0
    ensures PacketCount(c)
  {
    ModIsRemainder(0x100, c);
  }

  lemma MulDistributes(a: int, b: int, c: int)
    ensures (a - b) * c == a * c - b * c
  {
  }

  lemma MulAtLeast(d: int, c: int)
    requires d >= 1 && c > 0
    ensures d * c >= c
  {
  }

  lemma MulNeg(d: int, c: int)
    ensures (-d) * c == -(d * c)
  {
  }

  /** Reducing modulo 256 first does not change a slot index when the slot
      count divides 256. */
  lemma ModOfMod256(x: int, c: int)
    requires PacketCount(c)
    ensures (x % 0x100) % c == x % c
  {
    PacketCountDivides(c);
    var m := 0x100 / c;
    var q, r := x / 0x100, x % 0x100;
    assert x == (q * m + r / c) * c + r % c by {
      assert x == q * 0x100 + r;
      assert q * 0x100 == (q * m) * c;
      assert r == (r / c) * c + r % c;
    }
    ModUnique(x, c, q * m + r / c, r % c);
  }

  /** With the slot count dividing 256, the slot of a pending packet is the read
      counter's slot shifted by k. */
  lemma PendingSlotShift(rp: U8, k: nat, c: nat)
    requires PacketCount(c)
    ensures PendingSlot(rp, k, c) == (rp + k) % c
  {
    ModIsRemainder((rp + k) % 0x100, c);
    ModOfMod256(rp + k, c);
  }

  /** RingPos inverts PendingSlot for the first c packets. */
  lemma RingPosOfPendingSlot(rp: U8, k: nat, c: nat)
    requires PacketCount(c) && k < c
    ensures RingPos(PendingSlot(rp, k, c), rp, c) == k
  {
    PendingSlotShift(rp, k, c);
    PacketCountDivides(c);
    var s := (rp + k) % c;
    ModIsRemainder(s + 0x100 - rp, c);
    DistanceBack(rp + k, rp, s, c, 0x100 / c, k);
  }

  /** Arithmetic core of RingPosOfPendingSlot: with `s = x % c` and
      `x = rp + k`, going back from s by rp (plus a multiple m*c of c) lands on k. */
  lemma DistanceBack(x: int, rp: int, s: int, c: int, m: int, k: int)
    requires 0 < c && 0 <= k < c && x == rp + k && s == x % c && 0x100 == m * c
    ensures (s + 0x100 - rp) % c == k
  {
    var q := x / c;
    assert x == q * c + s;
    MulDistributes(m, q, c);
    assert s + 0x100 - rp == (m - q) * c + k;
    ModUnique(s + 0x100 - rp, c, m - q, k);
  }

  /** Slots at the same distance from the read counter are the same slot. */
  lemma RingPosInjective(s1: nat, s2: nat, rp: U8, c: nat)
    requires 0 < c && s1 < c && s2 < c && RingPos(s1, rp, c) == RingPos(s2, rp, c)
    ensures s1 == s2
  {
    ModIsRemainder(s1 + 0x100 - rp, c);
    ModIsRemainder(s2 + 0x100 - rp, c);
    SameRemainder(s1 + 0x100 - rp, s2 + 0x100 - rp, c);
  }

  /** PendingSlot inverts RingPos: the slot at distance RingPos(s) from the
      read counter is s. */
  lemma PendingSlotOfRingPos(s: nat, rp: U8, c: nat)
    requires PacketCount(c) && s < c
    ensures PendingSlot(rp, RingPos(s, rp, c), c) == s
  {
    var i := RingPos(s, rp, c);
    RingPosOfPendingSlot(rp, i, c);
    RingPosInjective(PendingSlot(rp, i, c), s, rp, c);
  }

  /** Two numbers less than c apart with the same remainder are equal. */
  lemma SameRemainder(x1: int, x2: int, c: int)
    requires 0 < c && -c < x1 - x2 < c && x1 % c == x2 % c
    ensures x1 == x2
  {
    var r, q1, q2 := x1 % c, x1 / c, x2 / c;
    assert x1 == q1 * c + r;
    assert x2 == q2 * c + r;
    MulDistributes(q1, q2, c);
    if q1 > q2 {
      MulAtLeast(q1 - q2, c);
    } else if q1 < q2 {
      MulAtLeast(q2 - q1, c);
      MulDistributes(q2, q1, c);
    }
  }

  /** One step of the acquire scan: the counter `rp + k` (as a `uint8_t`)
      steps to `rp + k + 1`, and the slot of the packet after the k-th is one
      scan step further. */
  lemma PendingSlotNext(rp: U8, k: nat, c: nat)
    requires PacketCount(c)
    ensures Inc((rp + k) % 0x100) == (rp + k + 1) % 0x100
    ensures PendingSlot(rp, k + 1, c) == ScanNext(PendingSlot(rp, k, c), c)
  {
    var x := (rp + k) % 0x100;
    ModAdd256(rp + k, 1);
    ScanIndexTracks(x, PendingSlot(rp, k, c), c);
  }

  /** Before the first wrap, the k-th pending packet after `rp` sits in slot `rp + k`. */
  lemma PendingSlotBelow(rp: U8, k: nat, c: nat)
    requires rp + k < c <= 0x100
    ensures PendingSlot(rp, k, c) == rp + k
  {
  }

  /** After the read counter advances, the k-th pending packet is the one
      that was (k+1)-th. */
  lemma PendingSlotAfterRead(rp: U8, k: nat, c: nat)
    requires 0 < c
    ensures PendingSlot(Inc(rp), k, c) == PendingSlot(rp, k + 1, c)
  {
    ModAdd256(rp + 1, k);
  }

  /** Counter values k and k2 steps after the same start coincide only for k == k2
      (both below 256). */
  lemma CountersEqual(rp: U8, k: nat, k2: nat)
    requires k < 0x100 && k2 < 0x100
    ensures (rp + k) % 0x100 == (rp + k2) % 0x100 <==> k == k2
  {
  }

  /** The first c pending packets lie in c distinct slots. */
  lemma PendingSlotsDistinct(rp: U8, k1: nat, k2: nat, c: nat)
    requires PacketCount(c) && k1 < c && k2 < c && k1 != k2
    ensures PendingSlot(rp, k1, c) != PendingSlot(rp, k2, c)
  {
    RingPosOfPendingSlot(rp, k1, c);
    RingPosOfPendingSlot(rp, k2, c);
  }

  /** The scan of the acquire loop keeps its slot index `n` equal to
      `rp % DAP_PACKET_COUNT` while `rp` counts up and wraps from 255 to 0,
      provided the slot count divides 256. */
  lemma {:induction false} ScanIndexTracks(x: U8, n: nat, c: nat)
    requires PacketCount(c) && n == Mod(x, c)
    ensures ScanNext(n, c) == Mod(Inc(x), c)
  {
    ModSucc(x, c);
    if x == 255 {
      ModSucc(255, c);
    }
  }

  /** One more step of the counter is one more step of its slot, wrapping at c. */
  lemma {:induction false} ModSucc(x: nat, c: nat)
    requires 0 < c
    ensures Mod(x + 1, c) == ScanNext(Mod(x, c), c)
    decreases x
  {
    if x >= c {
      ModSucc(x - c, c);
    }
  }

  /** Without the divisibility condition the scan index and the counter part
      ways at the wrap: with 3 slots, after counter 255 (slot 0) the scan moves
      to slot 1 while counter 0 designates slot 0. */
  lemma ScanIndexDivergesForThreeSlots()
    ensures !PacketCount(3)
    ensures ScanNext(Mod(255, 3), 3) != Mod(Inc(255), 3)
  {
    ModIsRemainder(0x100, 3);
    ModIsRemainder(255, 3);
    ModIsRemainder(0, 3);
  }

  /** Advancing the write counter adds exactly one packet, across the wrap too. */
  lemma OccupancyAfterWrite(wp: U8, rp: U8)
    requires Occupancy(wp, rp) < 0xFF
    ensures Occupancy(Inc(wp), rp) == Occupancy(wp, rp) + 1
  {
  }

  /** Advancing the read counter of a non-empty ring removes exactly one packet. */
  lemma OccupancyAfterRead(wp: U8, rp: U8)
    requires Occupancy(wp, rp) > 0
    ensures Occupancy(wp, Inc(rp)) == Occupancy(wp, rp) - 1
  {
  }

  /** `n` successive increments of an 8-bit counter. */
  function IncN(x: U8, n: nat): (y: U8)
    ensures y == (x + n) % 0x100
  {
    if n == 0 then x
    else
      ModAdd256(x + n - 1, 1);
      Inc(IncN(x, n - 1))
  }

  /** After 256 increments a counter is back where it started. */
  lemma CounterWraps(x: U8)
    ensures IncN(x, 0x100) == x
  {
  }

  /** Writes into a ring with room each add one packet, across the wrap too. */
  lemma {:induction false} OccupancyAfterWrites(wp: U8, rp: U8, n: nat)
    requires Occupancy(wp, rp) + n < 0x100
    ensures Occupancy(IncN(wp, n), rp) == Occupancy(wp, rp) + n
  {
    if n > 0 {
      OccupancyAfterWrites(wp, rp, n - 1);
      OccupancyAfterWrite(IncN(wp, n - 1), rp);
    }
  }

  /** Reads of pending packets each remove one packet, across the wrap too. */
  lemma {:induction false} OccupancyAfterReads(wp: U8, rp: U8, n: nat)
    requires n <= Occupancy(wp, rp)
    ensures Occupancy(wp, IncN(rp, n)) == Occupancy(wp, rp) - n
  {
    if n > 0 {
      OccupancyAfterReads(wp, rp, n - 1);
      OccupancyAfterRead(wp, IncN(rp, n - 1));
    }
  }

  /** Writes followed by reads: as long as the ring never holds 256 packets,
      the 8-bit occupancy is the number of packets pending or written and not
      yet read. */
  lemma OccupancyAfterWritesAndReads(wp: U8, rp: U8, nWrites: nat, nReads: nat)
    requires nReads <= Occupancy(wp, rp) + nWrites < 0x100
    ensures Occupancy(IncN(wp, nWrites), IncN(rp, nReads)) == Occupancy(wp, rp) + nWrites - nReads
  {
    OccupancyAfterWrites(wp, rp, nWrites);
    OccupancyAfterReads(IncN(wp, nWrites), rp, nReads);
  }

  /** Paired cycles (one write, then one read): the occupancy is the same
      after every cycle and one more between the write and the read of a
      cycle, however often the counters wrap (after 256 cycles both counters
      are back where they started: CounterWraps). */
  lemma {:induction false} PairedCycles(wp: U8, rp: U8, cycles: nat)
    requires Occupancy(wp, rp) < 0xFF
    ensures Occupancy(IncN(wp, cycles), IncN(rp, cycles)) == Occupancy(wp, rp)
    ensures Occupancy(IncN(wp, cycles + 1), IncN(rp, cycles)) == Occupancy(wp, rp) + 1
  {
    if cycles > 0 {
      PairedCycles(wp, rp, cycles - 1);
      OccupancyAfterRead(IncN(wp, cycles), IncN(rp, cycles - 1));
    }
    OccupancyAfterWrite(IncN(wp, cycles), IncN(rp, cycles));
  }

  /** Adding after reducing modulo 256 is adding before reducing. */
  lemma ModAdd256(a: int, k: int)
    ensures (a % 0x100 + k) % 0x100 == (a + k) % 0x100
  {
    var q := a / 0x100;
    assert a + k == q * 0x100 + (a % 0x100 + k);
    var r := (a % 0x100 + k) % 0x100;
    var p := (a % 0x100 + k) / 0x100;
    assert a + k == (q + p) * 0x100 + r;
    ModUnique(a + k, 0x100, q + p, r);
  }

  // ---------------------------------------------------------------- the occupancy as the C code computes it

  /** `unsigned occupancy = p_itf->request_wp - p_itf->request_rp;` as C evaluates
      it: both `uint8_t` operands are promoted to `int`, the difference lies in
      [-255, 255], and the conversion to a 32-bit `unsigned` adds 2^32 to a
      negative difference. */
  function OccupancyAsWritten(wp: U8, rp: U8): (n: U32)
    ensures rp <= wp ==> n == wp - rp
    ensures rp > wp ==> n >= 0x1_0000_0000 - 0xFF
  {
    (wp - rp) % 0x1_0000_0000
  }

  /** The C computation agrees with the 8-bit occupancy exactly when the write
      counter has not wrapped below the read counter. */
  lemma OccupancyAsWrittenAgrees(wp: U8, rp: U8)
    ensures OccupancyAsWritten(wp, rp) == Occupancy(wp, rp) <==> rp <= wp
  {
  }

  /** The C test `occupancy < DAP_PACKET_COUNT` passes exactly when the write
      counter has not wrapped below the read counter and the 8-bit occupancy
      passes it: after such a wrap the C code refuses whatever the ring holds. */
  lemma OccupancyTestAsWritten(wp: U8, rp: U8, c: nat)
    requires c <= 0x100
    ensures OccupancyAsWritten(wp, rp) < c <==> rp <= wp && Occupancy(wp, rp) < c
  {
  }

  /** With one packet pending across the wrap (wp = 0, rp = 255) the C test
      `occupancy < DAP_PACKET_COUNT` fails for every slot count, although the
      ring holds one packet and has room for more whenever it has two slots or more. */
  lemma OccupancyAsWrittenRefusesAfterWrap(c: nat)
    requires PacketCount(c)
    ensures Occupancy(0, 255) == 1
    ensures !(OccupancyAsWritten(0, 255) < c)
    ensures c >= 2 ==> Occupancy(0, 255) < c
  {
    PacketCountDivides(c);
  }
}
