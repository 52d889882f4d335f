/** The download progress tracker (src/tracker.rs): counts the bytes read, and
    at most about once a second prints a status line with the elapsed time and
    an estimate of the minutes left. Time is a parameter `now` in
    milliseconds, read from a clock that never goes back; the floating-point
    percentage and transfer rate are not modelled. */
module Tracker {
  import opened Types

  /** Why `estimated` panics: a division by zero elapsed seconds (line 48), the
      subtraction `content_length - total_read` underflowing (line 49), or a
      division by a zero rate (line 50). */
  datatype Fault = ZeroElapsed | Underflow | ZeroRate

  /** What one `update` prints: nothing, a status line with the whole seconds
      since the start and the estimate in minutes, or a panic inside
      `estimated`. */
  datatype Emission = Quiet | Emitted(secs: nat, minutes: nat) | Panicked(fault: Fault)

  /** Length of the window between status lines, in milliseconds. */
  const Window: nat := 1000

  /** The sum of a list of reads, added up in the order they happened. */
  function Sum(s: seq<nat>): nat
  {
    if s == [] then 0 else Sum(s[..|s| - 1]) + s[|s| - 1]
  }

  lemma SumAppend(s: seq<nat>, x: nat)
    ensures Sum(s + [x]) == Sum(s) + x
  {
    assert (s + [x])[..|s|] == s;
  }

  /** The reads of a window are the tail of all reads, so the window's count
      never exceeds the total. */
  lemma {:induction false} SumSuffixLe(s: seq<nat>, k: nat)
    requires k <= |s|
    ensures Sum(s[k..]) <= Sum(s)
    decreases |s|
  {
    if k < |s| {
      var init := s[..|s| - 1];
      assert s[k..][..|s[k..]| - 1] == init[k..];
      SumSuffixLe(init, k);
    }
  }

  lemma TailAppend(s: seq<nat>, t: seq<nat>, x: nat)
    requires |t| <= |s| && s[|s| - |t|..] == t
    ensures (s + [x])[|s + [x]| - |t + [x]|..] == t + [x]
  {
    assert (s + [x])[|s| - |t|..] == s[|s| - |t|..] + [x];
  }

  /** `estimated`: `(content_length - total_read) / (total_read / secs) / 60`
      in whole minutes, with its three panics checked in the order the
      expression evaluates them. */
  function Estimated(contentLength: nat, totalRead: nat, secs: nat): (r: Result<nat, Fault>)
    ensures r.Ok? <==> secs > 0 && totalRead <= contentLength && totalRead >= secs
    ensures secs == 0 ==> r == Err(ZeroElapsed)
    ensures secs > 0 && totalRead > contentLength ==> r == Err(Underflow)
    ensures secs > 0 && totalRead <= contentLength && totalRead < secs ==> r == Err(ZeroRate)
  {
    if secs == 0 then Err(ZeroElapsed)
    else
      var rate := totalRead / secs;
      if totalRead > contentLength then Err(Underflow)
      else
        var remaining := contentLength - totalRead;
        if rate == 0 then
          RateZero(totalRead, secs);
          Err(ZeroRate)
        else
          RatePositive(totalRead, secs);
          Ok(remaining / rate / 60)
  }

  /** The estimate is the number of whole minutes the remaining bytes take at
      the average rate so far (bytes per whole second). */
  lemma EstimatedFloor(contentLength: nat, totalRead: nat, secs: nat)
    requires Estimated(contentLength, totalRead, secs).Ok?
    ensures var m := Estimated(contentLength, totalRead, secs).value;
      var rate := totalRead / secs; var remaining := contentLength - totalRead;
      rate > 0 && m * 60 * rate <= remaining < (m + 1) * 60 * rate
  {
    EstimateBounds(contentLength - totalRead, totalRead / secs);
  }

  lemma RateZero(totalRead: nat, secs: nat)
    requires secs > 0 && totalRead / secs == 0
    ensures totalRead < secs
  {
  }

  lemma RatePositive(totalRead: nat, secs: nat)
    requires secs > 0 && totalRead / secs > 0
    ensures totalRead >= secs
  {
  }

  /** Dividing by the rate and then by 60 is the floor of dividing by 60 times
      the rate. */
  lemma EstimateBounds(remaining: nat, rate: nat)
    requires rate > 0
    ensures var m := remaining / rate / 60; m * 60 * rate <= remaining < (m + 1) * 60 * rate
  {
    var q := remaining / rate;
    var m := q / 60;
    assert q * rate <= remaining < (q + 1) * rate;
    assert m * 60 <= q < (m + 1) * 60;
    MulLe(m * 60, q, rate);
    MulLe(q + 1, (m + 1) * 60, rate);
  }

  lemma MulLe(a: nat, b: nat, c: nat)
    requires a <= b
    ensures a * c <= b * c
  {
  }

  /** `start.elapsed().as_secs()` at time `now`: whole seconds, and zero for a
      time before the start, as `Instant::elapsed` saturates. */
  function ElapsedSecs(start: nat, now: nat): (secs: nat)
    ensures now >= start ==> secs * 1000 <= now - start < (secs + 1) * 1000
    ensures now >= start + Window ==> secs >= 1
    ensures now < start ==> secs == 0
  {
    if now >= start then (now - start) / 1000 else 0
  }

  /** What `display` prints when `update` calls it at time `now`. */
  function Status(contentLength: nat, totalRead: nat, start: nat, now: nat): (e: Emission)
    ensures e != Quiet
    ensures now >= start + Window ==> e != Panicked(ZeroElapsed)
    ensures e.Emitted? ==> e.secs == ElapsedSecs(start, now)
    ensures e.Emitted? ==> Estimated(contentLength, totalRead, e.secs) == Ok(e.minutes)
    ensures e.Panicked? ==> Estimated(contentLength, totalRead, ElapsedSecs(start, now)) == Err(e.fault)
  {
    var secs := ElapsedSecs(start, now);
    match Estimated(contentLength, totalRead, secs)
    case Ok(minutes) => Emitted(secs, minutes)
    case Err(f) => Panicked(f)
  }

  /** Status line times: the first more than a window after the start, each
      later one more than a window after the one before. */
  ghost predicate Spaced(emissions: seq<nat>, start: nat)
  {
    && (emissions != [] ==> emissions[0] > start + Window)
    && (forall i :: 0 < i < |emissions| ==> emissions[i] > emissions[i - 1] + Window)
  }

  /** The time of the last status line, or the start before the first one. */
  ghost function LastEmission(emissions: seq<nat>, start: nat): nat
  {
    if emissions == [] then start else emissions[|emissions| - 1]
  }

  lemma EmitKeepsSpacing(emissions: seq<nat>, start: nat, timer: nat, now: nat)
    requires Spaced(emissions, start) && timer == LastEmission(emissions, start)
    requires now > timer + Window
    ensures Spaced(emissions + [now], start)
    ensures LastEmission(emissions + [now], start) == now
  {
  }

  class ProgressTracker {
    const contentLength: nat
    const start: nat
    var totalRead: nat
    var incrementalRead: nat
    var timer: nat
    /** Every read passed to `update`, in order. */
    ghost var history: seq<nat>
    /** The reads since the last status line. */
    ghost var window: seq<nat>
    /** The times status lines were printed. */
    ghost var emissions: seq<nat>
    /** The time of the latest call: the constructor's or the last `Update`'s `now`. */
    ghost var clock: nat

    ghost predicate Valid()
      reads this
    {
      && totalRead == Sum(history)
      && incrementalRead == Sum(window)
      && |window| <= |history| && history[|history| - |window|..] == window
      && start <= timer <= clock
      && timer == LastEmission(emissions, start)
      && Spaced(emissions, start)
    }

    /** `ProgressTracker::new`: nothing read, both clocks started now. */
    constructor(contentLength: nat, now: nat)
      ensures Valid()
      ensures this.contentLength == contentLength
      ensures totalRead == 0 && incrementalRead == 0
      ensures start == now && timer == now
      ensures history == [] && emissions == []
      ensures clock == now
    {
      this.contentLength := contentLength;
      totalRead := 0;
      incrementalRead := 0;
      start := now;
      timer := now;
      history := [];
      window := [];
      emissions := [];
      clock := now;
    }

    /** `update(read)` at time `now`: count the read; once more than a second
        has passed since the last status line, print one (through `display`
        and `estimated`) and start a new window. A panic in `estimated`
        happens after the counters were bumped and before the window is
        reset. */
    method Update(read: nat, now: nat) returns (e: Emission)
      requires Valid() && clock <= now
      modifies this`totalRead, this`incrementalRead, this`timer, this`history, this`window, this`emissions, this`clock
      ensures Valid()
      ensures totalRead == old(totalRead) + read && history == old(history) + [read]
      ensures now - old(timer) <= Window ==>
        e == Quiet && incrementalRead == old(incrementalRead) + read && timer == old(timer)
      ensures now - old(timer) > Window ==> e == Status(contentLength, totalRead, start, now)
      ensures e.Emitted? ==> incrementalRead == 0 && timer == now && emissions == old(emissions) + [now]
      ensures e.Panicked? ==> incrementalRead == old(incrementalRead) + read && timer == old(timer)
      ensures e != Panicked(ZeroElapsed)
      ensures !e.Emitted? ==> emissions == old(emissions)
      ensures clock == now
    {
      TailAppend(history, window, read);
      SumAppend(history, read);
      SumAppend(window, read);
      totalRead, history := totalRead + read, history + [read];
      incrementalRead, window := incrementalRead + read, window + [read];
      clock := now;
      e := Quiet;
      if now - timer > Window {
        e := Status(contentLength, totalRead, start, now);
        if e.Emitted? {
          EmitKeepsSpacing(emissions, start, timer, now);
          timer, incrementalRead, window, emissions := now, 0, [], emissions + [now];
        }
      }
    }

    /** Status lines are more than a second apart, so there are fewer of them
        than seconds since the start. */
    lemma EmissionsBounded()
      requires Valid()
      ensures |emissions| * (Window + 1) <= clock - start
    {
      if emissions != [] {
        EmissionsSpaced(|emissions| - 1);
      }
    }

    lemma {:induction false} EmissionsSpaced(i: nat)
      requires Valid() && i < |emissions|
      ensures emissions[i] >= start + (i + 1) * (Window + 1)
    {
      if i > 0 {
        EmissionsSpaced(i - 1);
      }
    }

    /** The current window's count never exceeds the total count. */
    lemma IncrementalLeTotal()
      requires Valid()
      ensures incrementalRead <= totalRead
    {
      SumSuffixLe(history, |history| - |window|);
    }
  }
}
