/**
  Nonces: the durable high-water mark, the seed it gives a new process, and
  the in-process counter that hands nonces out.  The counter is a 64-bit word
  whose successor wraps.
*/
module Nonce {
  import opened Wrappers

  const U64_MAX: nat := 0xFFFF_FFFF_FFFF_FFFF

  type U64 = n: nat | n <= U64_MAX

  function Successor(n: U64): U64 {
    if n == U64_MAX then 0 else n + 1
  }

  function Max(m: U64, n: U64): U64 {
    if m < n then n else m
  }

  /** `max(now, mark + 1)`. */
  function NextSeed(mark: U64, now: U64): U64 {
    Max(now, Successor(mark))
  }

  /** The counter one below the seed, so that the first nonce is at least the seed. */
  function SeedCounter(mark: U64, now: U64): U64 {
    var seed := NextSeed(mark, now);
    if seed == 0 then 0 else seed - 1
  }

  /** `max(last + 1, now)`. */
  function Mint(last: U64, now: U64): U64 {
    Max(now, Successor(last))
  }

  /**
    The first nonce of a process: at least the clock at seeding, at least the
    clock at the call and above the mark, and no larger than one of them needs.
  */
  lemma FirstNonceExactly(mark: U64, seededAt: U64, now: U64)
    requires mark < U64_MAX
    ensures var nonce := Mint(SeedCounter(mark, seededAt), now);
      && nonce >= seededAt && nonce >= now && nonce > mark
      && (nonce == seededAt || nonce == now || nonce == mark + 1)
    ensures NextSeed(mark, seededAt) >= seededAt && NextSeed(mark, seededAt) > mark
    ensures NextSeed(mark, seededAt) == seededAt || NextSeed(mark, seededAt) == mark + 1
  {
  }

  datatype WriteOutcome = Renamed | Failed

  /** The mark as the file holds it; no file reads as zero. */
  class MarkFile {
    var mark: Option<U64>

    constructor ()
      ensures mark == None
    {
      mark := None;
    }

    function Value(): U64
      reads this
    {
      match mark
      case None => 0
      case Some(n) => n
    }
  }

  class NonceHwm {
    const file: MarkFile
    var current: U64

    constructor Load(file: MarkFile)
      ensures this.file == file && current == file.Value()
    {
      this.file := file;
      current := file.Value();
    }

    /** Memory follows the file only after the rename; a lower nonce writes nothing, so neither moves back. */
    method Advance(nonce: U64, outcome: WriteOutcome) returns (persisted: bool)
      modifies this`current, file
      ensures persisted <==> nonce <= old(current) || outcome.Renamed?
      ensures current == if persisted then Max(old(current), nonce) else old(current)
      ensures file.mark == if persisted && nonce > old(current) then Some(nonce) else old(file.mark)
    {
      if nonce <= current {
        return true;
      }
      if outcome.Failed? {
        return false;
      }
      file.mark := Some(nonce);
      current := nonce;
      return true;
    }
  }

  class Client {
    var lastNonce: U64
    var hwm: NonceHwm?

    constructor ()
      ensures lastNonce == 0 && hwm == null
    {
      lastNonce, hwm := 0, null;
    }

    method SeedNonce(mark: NonceHwm, now: U64)
      modifies this
      ensures hwm == mark && lastNonce == SeedCounter(mark.current, now)
      ensures mark.current < U64_MAX ==>
        lastNonce + 1 >= now && lastNonce >= mark.current && (lastNonce + 1 == now || lastNonce == mark.current)
      ensures mark.current == U64_MAX ==> lastNonce == if now == 0 then 0 else now - 1
    {
      lastNonce := SeedCounter(mark.current, now);
      hwm := mark;
    }

    /**
      One call while other threads win the exchange `|rivals|` times first,
      leaving their own nonces in the counter.  The clock is read once, and a
      mark that cannot be written does not stop the nonce.
    */
    method NextNonce(now: U64, rivals: seq<U64>, outcome: WriteOutcome) returns (nonce: U64)
      requires forall i :: 0 <= i < |rivals| ==> rivals[i] != if i == 0 then lastNonce else rivals[i - 1]
      modifies this`lastNonce, hwm, if hwm == null then {} else {hwm.file}
      ensures nonce == Mint(if rivals == [] then old(lastNonce) else rivals[|rivals| - 1], now)
      ensures lastNonce == nonce && hwm == old(hwm)
      ensures var last := if rivals == [] then old(lastNonce) else rivals[|rivals| - 1];
        if last == U64_MAX then nonce == now
        else nonce >= now && nonce > last && (nonce == now || nonce == last + 1)
      ensures hwm != null ==>
        && hwm.current == (if outcome.Renamed? then Max(old(hwm.current), nonce) else old(hwm.current))
        && hwm.file.mark == if outcome.Renamed? && nonce > old(hwm.current) then Some(nonce) else old(hwm.file.mark)
    {
      var attempt := 0;
      while true
        invariant attempt <= |rivals|
        invariant lastNonce == if attempt == 0 then old(lastNonce) else rivals[attempt - 1]
        modifies this`lastNonce
        decreases |rivals| - attempt
      {
        var last := lastNonce;
        var next := Mint(last, now);
        if attempt < |rivals| {
          lastNonce := rivals[attempt];
          attempt := attempt + 1;
        }
        if lastNonce == last {
          lastNonce := next;
          break;
        }
      }
      nonce := lastNonce;
      if hwm != null {
        var _ := hwm.Advance(nonce, outcome);
      }
    }
  }
}
