/** The floating Pomodoro timer (`client/src/components/study-timer.tsx`). The one-second interval
    is modelled as a discrete `Tick`; saving a session is the value `Stop` returns. */
module StudyTimer {
  import opened Strings

  const DefaultMinutes := 25

  /** The three preset buttons. */
  predicate IsPreset(p: int) { p == 15 || p == 25 || p == 45 }

  /** The minutes credited by Stop: the remaining minutes are subtracted from the starting ones,
      and one more when the seconds read zero. Measured against the elapsed seconds, a partial
      minute is rounded up while whole elapsed minutes lose one. */
  function StudiedMinutes(initial: int, minutes: int, seconds: int): (r: int)
    ensures 0 <= seconds <= 59 ==>
      var elapsed := initial * 60 - (minutes * 60 + seconds);
      (seconds > 0 ==> (r - 1) * 60 < elapsed < r * 60) &&
      (seconds == 0 ==> r * 60 == elapsed - 60)
  {
    initial - minutes - (if seconds > 0 then 0 else 1)
  }

  /** The duration Stop saves, if any: only when the timer was used and the credit is positive. */
  function SaveOnStop(running: bool, initial: int, minutes: int, seconds: int): (r: Option<int>)
    ensures r.Some? <==>
      (running || minutes != initial || seconds != 0) && StudiedMinutes(initial, minutes, seconds) > 0
    ensures r.Some? ==> r.value == StudiedMinutes(initial, minutes, seconds)
    ensures r.Some? ==> r.value > 0 && (running || minutes != initial || seconds != 0)
    ensures r.Some? && minutes >= 0 ==> r.value <= initial
    ensures !running && minutes == initial && seconds == 0 ==> r.None?
  {
    if running || minutes != initial || seconds != 0 then
      var studied := StudiedMinutes(initial, minutes, seconds);
      if studied > 0 then Some(studied) else None
    else None
  }

  /** A full minute from a 25-minute start (24:00) saves nothing... */
  lemma FullMinuteSavesNothing(running: bool)
    ensures SaveOnStop(running, 25, 24, 0) == None
  {
  }

  /** ...while a single second (24:59) saves a whole minute. */
  lemma OneSecondSavesAMinute(running: bool)
    ensures SaveOnStop(running, 25, 24, 59) == Some(1)
  {
  }

  /** `mm:ss`, both fields padded to at least two digits. */
  function FormatTime(minutes: nat, seconds: nat): (r: string)
    ensures Split(r, ':') == [Pad2(minutes), Pad2(seconds)]
  {
    var r := Pad2(minutes) + ":" + Pad2(seconds);
    SplitJoin([Pad2(minutes), Pad2(seconds)], ':');
    assert Join([Pad2(minutes), Pad2(seconds)], ":") == r;
    r
  }

  /** The display reads back as the timer's minutes and seconds, five characters wide below 100 minutes. */
  lemma FormatTimeReadBack(minutes: nat, seconds: nat)
    ensures var pieces := Split(FormatTime(minutes, seconds), ':');
      ParseDecimal(pieces[0]) == minutes && ParseDecimal(pieces[1]) == seconds
    ensures minutes < 100 && seconds < 100 ==> |FormatTime(minutes, seconds)| == 5
  {
    ParsePad2(minutes);
    ParsePad2(seconds);
    if minutes < 100 && seconds < 100 {
      Pad2TwoDigits(minutes);
      Pad2TwoDigits(seconds);
    }
  }

  class Timer {
    var minutes: int
    var seconds: int
    var isRunning: bool
    var initialMinutes: int

    /** Seconds are a clock field, nothing goes negative, and the remaining time never exceeds the start. */
    predicate Valid()
      reads this
    {
      0 <= seconds <= 59 && 0 <= minutes && IsPreset(initialMinutes) &&
      minutes * 60 + seconds <= initialMinutes * 60
    }

    function TotalSeconds(): int
      reads this
    {
      minutes * 60 + seconds
    }

    /** The interval exists only while running with time left. */
    predicate Ticking()
      reads this
    {
      isRunning && (minutes > 0 || seconds > 0)
    }

    constructor()
      ensures Valid()
      ensures minutes == 25 && seconds == 0 && !isRunning && initialMinutes == 25
    {
      minutes := DefaultMinutes;
      seconds := 0;
      isRunning := false;
      initialMinutes := DefaultMinutes;
    }

    /** One interval callback. With no interval nothing happens. The completion branch, which
        would stop and save `initialMinutes`, needs 00:00 while ticking and so never runs: at
        00:00 the interval is not re-armed, the timer stays running and nothing is saved. */
    method Tick()
      requires Valid()
      modifies this
      ensures Valid()
      ensures isRunning == old(isRunning) && initialMinutes == old(initialMinutes)
      ensures old(Ticking()) ==> TotalSeconds() == old(TotalSeconds()) - 1
      ensures old(Ticking()) && old(seconds) > 0 ==> minutes == old(minutes) && seconds == old(seconds) - 1
      ensures old(Ticking()) && old(seconds) == 0 ==> minutes == old(minutes) - 1 && seconds == 59
      ensures !old(Ticking()) ==> minutes == old(minutes) && seconds == old(seconds)
    {
      if isRunning && (minutes > 0 || seconds > 0) {
        if seconds == 0 {
          if minutes == 0 {
            assert false;
          }
          minutes := minutes - 1;
          seconds := 59;
        } else {
          seconds := seconds - 1;
        }
      }
    }

    method Start()
      requires Valid()
      modifies this
      ensures Valid()
      ensures isRunning
      ensures minutes == old(minutes) && seconds == old(seconds) && initialMinutes == old(initialMinutes)
    {
      isRunning := true;
    }

    method Pause()
      requires Valid()
      modifies this
      ensures Valid()
      ensures !isRunning
      ensures minutes == old(minutes) && seconds == old(seconds) && initialMinutes == old(initialMinutes)
    {
      isRunning := false;
    }

    /** Back to 25:00, stopped, whatever the preset was. */
    method Reset()
      modifies this
      ensures Valid()
      ensures !isRunning && minutes == 25 && seconds == 0 && initialMinutes == 25
    {
      isRunning := false;
      minutes := DefaultMinutes;
      seconds := 0;
      initialMinutes := DefaultMinutes;
    }

    /** The 15m, 25m and 45m buttons. */
    method Preset(p: int)
      requires IsPreset(p)
      modifies this
      ensures Valid()
      ensures !isRunning && minutes == p && seconds == 0 && initialMinutes == p
    {
      minutes := p;
      seconds := 0;
      initialMinutes := p;
      isRunning := false;
    }

    /** Saves the credited minutes, if any, then resets to 25:00. */
    method Stop() returns (saved: Option<int>)
      requires Valid()
      modifies this
      ensures saved == SaveOnStop(old(isRunning), old(initialMinutes), old(minutes), old(seconds))
      ensures saved.Some? ==> 0 < saved.value <= old(initialMinutes)
      ensures Valid()
      ensures !isRunning && minutes == 25 && seconds == 0 && initialMinutes == 25
    {
      saved := None;
      if isRunning || minutes != initialMinutes || seconds != 0 {
        var studied := initialMinutes - minutes - (if seconds > 0 then 0 else 1);
        if studied > 0 {
          saved := Some(studied);
        }
      }
      isRunning := false;
      minutes := DefaultMinutes;
      seconds := 0;
      initialMinutes := DefaultMinutes;
    }
  }
}
