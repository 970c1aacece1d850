/**
  The countdown loop shared by `countdown` in project.py and in sound.py:
  minutes are scaled to a number of seconds, and each tick renders the
  remaining seconds as `MM:SS` (`divmod(seconds, 60)`, both fields `02d`)
  before the counter drops by one. The two copies differ only in the
  seconds-per-minute multiplier, which is a parameter here.
 */
module Timer {
  import opened Wrappers
  import opened PyText

  /** The display for `s` remaining seconds: `f"{mins:02d}:{secs:02d}"` with `mins, secs = divmod(s, 60)`. */
  function Clock(s: nat): string {
    ZeroPad2(s / 60) + ":" + ZeroPad2(s % 60)
  }

  /** A display has `:` before its last two characters and is exactly `MM:SS` (5 wide) below 100 minutes. */
  lemma ClockWidth(s: nat)
    ensures |Clock(s)| >= 5 && Clock(s)[|Clock(s)| - 3] == ':'
    ensures |Clock(s)| == 5 <==> s < 6000
  {
    ZeroPad2Width(s / 60);
    ZeroPad2Width(s % 60);
  }

  /** The two fields of a display, read back with `int()`: minutes, then seconds. */
  function ClockFields(t: string): Option<(int, int)> {
    if |t| < 3 || t[|t| - 3] != ':' then None
    else
      match (ParseInt(t[..|t| - 3]), ParseInt(t[|t| - 2..]))
      case (Some(m), Some(s)) => Some((m, s))
      case _ => None
  }

  /** Splitting a display at its third-last character gives back the two fields. */
  lemma FieldsOfJoin(a: string, b: string)
    requires |b| == 2
    ensures ClockFields(a + ":" + b) ==
      if ParseInt(a).Some? && ParseInt(b).Some? then Some((ParseInt(a).value, ParseInt(b).value)) else None
  {
    var t := a + ":" + b;
    assert t[..|t| - 3] == a;
    assert t[|t| - 2..] == b;
  }

  /** Display `t` reads back as `n` seconds: its fields parse and minutes * 60 + seconds is `n`. */
  predicate Shows(t: string, n: int) {
    ClockFields(t).Some? && ClockFields(t).value.0 * 60 + ClockFields(t).value.1 == n
  }

  /** The display shows `divmod(s, 60)`: seconds below 60, and together they make `s`. */
  lemma ClockShowsDivmod(s: nat)
    ensures Shows(Clock(s), s)
    ensures ClockFields(Clock(s)).value == (s / 60, s % 60)
  {
    var m, x := s / 60, s % 60;
    ZeroPad2Width(x);
    FieldsOfJoin(ZeroPad2(m), ZeroPad2(x));
    ParseZeroPad2(m);
    ParseZeroPad2(x);
    assert ClockFields(Clock(s)).value == (m, x);
  }

  /** The displays a countdown from `seconds` renders, in order: the `i`-th shows `seconds - i`. */
  function Ticks(seconds: nat): seq<string> {
    seq(seconds, i requires 0 <= i < seconds => Clock(seconds - i))
  }

  /**
    A countdown from `seconds` renders exactly `seconds` displays; read back,
    they count `seconds`, `seconds - 1`, ..., `1`: one less per tick, ending at 1.
   */
  lemma CountsDown(seconds: nat)
    ensures |Ticks(seconds)| == seconds
    ensures forall i :: 0 <= i < seconds ==> Shows(Ticks(seconds)[i], seconds - i)
  {
    forall i | 0 <= i < seconds
      ensures Shows(Ticks(seconds)[i], seconds - i)
    {
      ShowsClock(Ticks(seconds)[i], seconds - i);
    }
  }

  /** Any string equal to the display of `s` reads back as `s`. */
  lemma ShowsClock(t: string, s: nat)
    requires t == Clock(s)
    ensures Shows(t, s)
  {
    ClockShowsDivmod(s);
  }

  /** The displays before tick `k`, then the display of tick `k`. */
  lemma TicksPrefix(total: nat, k: nat)
    requires k < total
    ensures Ticks(total)[..k + 1] == Ticks(total)[..k] + [Clock(total - k)]
  {
  }

  /** The `while seconds:` loop of `countdown`: render, then drop the counter by one, until it is 0. */
  method RunDown(seconds: nat) returns (shown: seq<string>)
    ensures shown == Ticks(seconds)
  {
    var remaining: nat := seconds;
    shown := [];
    while remaining != 0
      invariant remaining <= seconds
      invariant shown == Ticks(seconds)[..seconds - remaining]
      decreases remaining
    {
      var timer := Clock(remaining);
      TicksPrefix(seconds, seconds - remaining);
      shown := shown + [timer];
      remaining := remaining - 1;
    }
    assert Ticks(seconds)[..seconds] == Ticks(seconds);
  }

  /** `countdown(minutes)`, with `secondsPerMinute` the source's multiplier. */
  method Countdown(minutes: nat, secondsPerMinute: nat) returns (shown: seq<string>)
    ensures shown == Ticks(minutes * secondsPerMinute)
  {
    var seconds := minutes * secondsPerMinute;
    shown := RunDown(seconds);
  }
}
