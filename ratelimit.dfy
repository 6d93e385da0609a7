/**
 * The sliding-window limiter shared by `checkSubmissionLimit` and
 * `checkCommentLimit`: sweep every expired row of the log (for all addresses),
 * then count the caller's rows strictly inside the window.
 */
module RateLimit {
  import opened Schema

  /** `10 * 60 * 1000` milliseconds. */
  const WindowMs: int := 10 * 60 * 1000
  /** Pig submissions admitted per address and window. */
  const MaxSubmissions: nat := 3
  /** Comments admitted per address and window. */
  const MaxComments: nat := 5

  /** `tenMinutesAgo`. */
  function Cutoff(now: int): int {
    now - WindowMs
  }

  /** `DELETE FROM log WHERE timestamp < cutoff`: keeps the other rows, in order. */
  function Sweep(log: seq<LogRow>, cutoff: int): (r: seq<LogRow>)
    ensures |r| <= |log|
    ensures forall i :: 0 <= i < |r| ==> r[i].timestamp >= cutoff
  {
    if log == [] then []
    else if log[0].timestamp < cutoff then Sweep(log[1..], cutoff)
    else [log[0]] + Sweep(log[1..], cutoff)
  }

  /** The swept log holds exactly the rows at or after the cutoff. */
  lemma {:induction false} SweepMembers(log: seq<LogRow>, cutoff: int)
    ensures forall row :: row in Sweep(log, cutoff) <==> row in log && row.timestamp >= cutoff
  {
    if log != [] {
      SweepMembers(log[1..], cutoff);
      assert log == [log[0]] + log[1..];
    }
  }

  /** `SELECT COUNT(*) FROM log WHERE ip = ? AND timestamp > cutoff`. */
  function CountRecent(log: seq<LogRow>, ip: string, cutoff: int): (n: nat)
    ensures n <= |log|
  {
    if log == [] then 0
    else (if log[0].ip == ip && log[0].timestamp > cutoff then 1 else 0) + CountRecent(log[1..], ip, cutoff)
  }

  datatype Verdict = Verdict(log: seq<LogRow>, allowed: bool)

  /**
   * One limiter check at time `now` against `max`: the swept log and the verdict,
   * computed on the swept log as the source does.
   */
  function Check(log: seq<LogRow>, ip: string, now: int, max: nat): (v: Verdict)
    ensures |v.log| <= |log|
    ensures v.allowed <==> CountRecent(log, ip, Cutoff(now)) < max
  {
    var swept := Sweep(log, Cutoff(now));
    SweepKeepsCount(log, Cutoff(now), ip, Cutoff(now));
    Verdict(swept, CountRecent(swept, ip, Cutoff(now)) < max)
  }

  /** After a check the log holds exactly the rows inside the window, expired rows of every address gone. */
  lemma CheckLog(log: seq<LogRow>, ip: string, now: int, max: nat)
    ensures var v := Check(log, ip, now, max);
      && (forall i :: 0 <= i < |v.log| ==> v.log[i].timestamp >= Cutoff(now))
      && (forall row :: row in v.log <==> row in log && row.timestamp >= Cutoff(now))
  {
    SweepMembers(log, Cutoff(now));
  }

  /** Sweeping at or before a cutoff never changes the count at that cutoff. */
  lemma {:induction false} SweepKeepsCount(log: seq<LogRow>, sweepAt: int, ip: string, cutoff: int)
    requires sweepAt <= cutoff
    ensures CountRecent(Sweep(log, sweepAt), ip, cutoff) == CountRecent(log, ip, cutoff)
  {
    if log != [] {
      SweepKeepsCount(log[1..], sweepAt, ip, cutoff);
    }
  }

  lemma {:induction false} CountAppend(log: seq<LogRow>, row: LogRow, ip: string, cutoff: int)
    ensures CountRecent(log + [row], ip, cutoff)
            == CountRecent(log, ip, cutoff) + (if row.ip == ip && row.timestamp > cutoff then 1 else 0)
  {
    if log == [] {
      assert log + [row] == [row];
    } else {
      assert (log + [row])[1..] == log[1..] + [row];
      CountAppend(log[1..], row, ip, cutoff);
    }
  }

  /** Sweeping a log with one more row sweeps that row on its own. */
  lemma {:induction false} SweepAppend(log: seq<LogRow>, row: LogRow, cutoff: int)
    ensures Sweep(log + [row], cutoff) == Sweep(log, cutoff) + (if row.timestamp < cutoff then [] else [row])
  {
    if log == [] {
      assert log + [row] == [row];
      assert [row][1..] == [];
    } else {
      var head := if log[0].timestamp < cutoff then [] else [log[0]];
      assert (log + [row])[0] == log[0] && (log + [row])[1..] == log[1..] + [row];
      assert Sweep(log + [row], cutoff) == head + Sweep(log[1..] + [row], cutoff);
      SweepAppend(log[1..], row, cutoff);
      assert Sweep(log, cutoff) == head + Sweep(log[1..], cutoff);
    }
  }

  /**
   * The boundary: a row stamped exactly at the cutoff survives the sweep but is not
   * counted.
   */
  lemma BoundaryRow(log: seq<LogRow>, ip: string, cutoff: int)
    ensures Sweep(log + [LogRow(ip, cutoff)], cutoff) == Sweep(log, cutoff) + [LogRow(ip, cutoff)]
    ensures CountRecent(log + [LogRow(ip, cutoff)], ip, cutoff) == CountRecent(log, ip, cutoff)
  {
    SweepAppend(log, LogRow(ip, cutoff), cutoff);
    CountAppend(log, LogRow(ip, cutoff), ip, cutoff);
  }

  /** Nobody is blocked for good: once all of an address's rows have aged out, it is admitted. */
  lemma {:induction false} AgedOutAdmitted(log: seq<LogRow>, ip: string, now: int, max: nat)
    requires max > 0
    requires forall i :: 0 <= i < |log| && log[i].ip == ip ==> log[i].timestamp <= Cutoff(now)
    ensures CountRecent(log, ip, Cutoff(now)) == 0
    ensures Check(log, ip, now, max).allowed
  {
    if log != [] {
      AgedOutAdmitted(log[1..], ip, now, max);
    }
  }

  /**
   * A row recorded at `t` and a later check at `now` inside its window: the row is
   * still in the swept log and counts.
   */
  lemma RecordedRowCounts(log: seq<LogRow>, ip: string, t: int, now: int)
    requires t <= now < t + WindowMs
    ensures CountRecent(log + [LogRow(ip, t)], ip, Cutoff(now)) == CountRecent(log, ip, Cutoff(now)) + 1
  {
    CountAppend(log, LogRow(ip, t), ip, Cutoff(now));
  }
}
