/**
 * receiver/time.c: the conversion between a `timespec` and a count of
 * nanoseconds in a `uint64_t`. The clock calls around the conversions are
 * outside the model.
 */
module Time {
  import opened Machine

  const NanosPerSecond: nat := 1_000_000_000

  /** A `struct timespec`: whole seconds and the nanoseconds past them. */
  datatype Timespec = Timespec(sec: int, nsec: int)

  /**
   * `gettime_ns`: the seconds cast to `uint64_t`, scaled to nanoseconds and
   * added to the nanoseconds, all in 64-bit unsigned arithmetic.
   */
  function GettimeNs(tp: Timespec): (r: nat)
    ensures r < U64
    ensures 0 <= tp.sec && 0 <= tp.nsec && tp.sec * NanosPerSecond + tp.nsec < U64 ==> r == tp.sec * NanosPerSecond + tp.nsec
  {
    Wrap(Wrap(tp.sec, U64) * NanosPerSecond + tp.nsec, U64)
  }

  /** `settime_ns`: the timespec it passes to the clock for `timeNs`. */
  function SettimeNs(timeNs: nat): (r: Timespec)
    requires timeNs < U64
    ensures 0 <= r.nsec < NanosPerSecond
    ensures 0 <= r.sec && r.sec * NanosPerSecond <= timeNs
  {
    Timespec(timeNs / NanosPerSecond, timeNs % NanosPerSecond)
  }

  /** Splitting a time and joining it again gives the time back. */
  lemma SplitJoin(timeNs: nat)
    requires timeNs < U64
    ensures GettimeNs(SettimeNs(timeNs)) == timeNs
  {
    var tp := SettimeNs(timeNs);
    assert tp.sec * NanosPerSecond + tp.nsec == timeNs;
  }

  /**
   * Joining a normalised timespec and splitting the result gives it back,
   * when the time fits in 64 bits.
   */
  lemma JoinSplit(tp: Timespec)
    requires 0 <= tp.sec && 0 <= tp.nsec < NanosPerSecond
    requires tp.sec * NanosPerSecond + tp.nsec < U64
    ensures SettimeNs(GettimeNs(tp)) == tp
  {
    var t := GettimeNs(tp);
    LemmaModUnique(t, NanosPerSecond, tp.sec, tp.nsec);
  }

  /** Past 64 bits the join wraps: 18446744074 s reads as 290448384 ns. */
  lemma JoinWraps()
    ensures GettimeNs(Timespec(18_446_744_074, 0)) == 290_448_384
  {
  }
}
