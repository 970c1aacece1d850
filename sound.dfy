/** sound.py: the stand-alone countdown, sixty seconds to the minute. */
module Sound {
  import opened PyText
  import Timer

  /** A whole number of minutes shows as those minutes and `00` seconds. */
  lemma WholeMinutes(minutes: nat)
    ensures Timer.Clock(minutes * 60) == ZeroPad2(minutes) + ":00"
  {
    assert (minutes * 60) / 60 == minutes && (minutes * 60) % 60 == 0;
    assert ZeroPad2(0) == "00";
  }

  /** `countdown(minutes)` of sound.py. */
  method Countdown(minutes: nat) returns (shown: seq<string>)
    ensures shown == Timer.Ticks(minutes * 60)
    ensures |shown| == minutes * 60
    ensures minutes > 0 ==> shown[0] == ZeroPad2(minutes) + ":00"
  {
    shown := Timer.Countdown(minutes, 60);
    WholeMinutes(minutes);
  }
}
