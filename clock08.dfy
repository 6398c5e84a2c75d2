// The clock of the timer example (firmware/examples/08_timers.c): three
// counters that timer interrupts advance once a second, a minute and an
// hour, and a fourth timer that prints the time every two seconds.

module Clock08 {
  import opened Words

  const SECONDS_IN_MINUTE: nat := 60
  const MINUTES_IN_HOUR: nat := 60
  const HOURS_IN_DAY: nat := 24

  /** The interrupt periods, in microseconds. */
  const MICROSECOND_IN_SECOND: nat := 1000000
  const MICROSECOND_IN_MINUTE: nat := SECONDS_IN_MINUTE * MICROSECOND_IN_SECOND
  const MICROSECOND_IN_HOUR: nat := MINUTES_IN_HOUR * MICROSECOND_IN_MINUTE

  /** The intervals setup writes to timers 0 to 3. */
  const INTERVALS: seq<nat> :=
    [MICROSECOND_IN_SECOND * 2, MICROSECOND_IN_SECOND, MICROSECOND_IN_MINUTE, MICROSECOND_IN_HOUR]

  /** Every interval fits the 32-bit interval register, so truncating it on
      the way in loses nothing. */
  lemma IntervalsFit()
    ensures INTERVALS == [2000000, 1000000, 60000000, 3600000000]
    ensures forall k :: 0 <= k < |INTERVALS| ==> INTERVALS[k] < WORD && INTERVALS[k] % WORD == INTERVALS[k]
  {
  }

  /** One step of a counter that counts 0 .. n - 1 and wraps. */
  function Tick(v: u32, n: nat): (r: u32)
    requires 1 <= n <= WORD
  {
    if v < n - 1 then v + 1 else 0
  }

  /** A counter in range steps to its successor modulo n, and stays in
      range. */
  lemma TickIsModular(v: u32, n: nat)
    requires 1 <= n <= WORD && v < n
    ensures Tick(v, n) == (v + 1) % n && Tick(v, n) < n
  {
  }

  /** From 0, k steps of the counter give k modulo n. */
  lemma {:induction false} TickCount(n: nat, k: nat)
    requires 1 <= n <= WORD
    ensures Ticks(0, n, k) == k % n
  {
    if k > 0 {
      TickCount(n, k - 1);
      TickIsModular(Ticks(0, n, k - 1), n);
      ModSucc(k - 1, n);
    }
  }

  lemma ModSucc(a: nat, n: nat)
    requires n >= 1
    ensures (a % n + 1) % n == (a + 1) % n
  {
    var q, r := a / n, a % n;
    assert a == q * n + r;
    if r + 1 < n {
      ModUnique(a + 1, q, r + 1, n);
      ModUnique(r + 1, 0, r + 1, n);
    } else {
      ModUnique(a + 1, q + 1, 0, n);
      ModUnique(r + 1, 1, 0, n);
    }
  }

  /** The counter after k steps. */
  function Ticks(v: u32, n: nat, k: nat): u32
    requires 1 <= n <= WORD
  {
    if k == 0 then v else Tick(Ticks(v, n, k - 1), n)
  }

  class Clock {
    var seconds: u32
    var minutes: u32
    var hours: u32

    ghost predicate Valid()
      reads this
    {
      seconds < SECONDS_IN_MINUTE && minutes < MINUTES_IN_HOUR && hours < HOURS_IN_DAY
    }

    constructor ()
      ensures Valid() && seconds == 0 && minutes == 0 && hours == 0
    {
      seconds, minutes, hours := 0, 0, 0;
    }

    /** increment_seconds: the next second, 59 wrapping to 0; the minutes
        and hours are left alone. */
    method IncrementSeconds()
      modifies this`seconds
      ensures seconds == Tick(old(seconds), SECONDS_IN_MINUTE)
      ensures old(Valid()) ==> Valid() && seconds == (old(seconds) + 1) % SECONDS_IN_MINUTE
    {
      if seconds < SECONDS_IN_MINUTE - 1 {
        seconds := seconds + 1;
      } else {
        seconds := 0;
      }
    }

    method IncrementMinutes()
      modifies this`minutes
      ensures minutes == Tick(old(minutes), MINUTES_IN_HOUR)
      ensures old(Valid()) ==> Valid() && minutes == (old(minutes) + 1) % MINUTES_IN_HOUR
    {
      if minutes < MINUTES_IN_HOUR - 1 {
        minutes := minutes + 1;
      } else {
        minutes := 0;
      }
    }

    method IncrementHours()
      modifies this`hours
      ensures hours == Tick(old(hours), HOURS_IN_DAY)
      ensures old(Valid()) ==> Valid() && hours == (old(hours) + 1) % HOURS_IN_DAY
    {
      if hours < HOURS_IN_DAY - 1 {
        hours := hours + 1;
      } else {
        hours := 0;
      }
    }

    /** print_clock's text, "Current time is HH:MM:SS" and a newline. It
        reads the counters and changes none of them. */
    function PrintClock(): (text: seq<char>)
      requires Valid()
      reads this
      ensures |text| == |PREFIX| + 9 && text[.. |PREFIX|] == PREFIX
      ensures ReadTwo(text[|PREFIX| .. |PREFIX| + 2]) == hours
      ensures ReadTwo(text[|PREFIX| + 3 .. |PREFIX| + 5]) == minutes
      ensures ReadTwo(text[|PREFIX| + 6 .. |PREFIX| + 8]) == seconds
      ensures text[|PREFIX| + 2] == ':' && text[|PREFIX| + 5] == ':' && text[|PREFIX| + 8] == '\n'
      ensures IsDigit(text[|PREFIX|]) && IsDigit(text[|PREFIX| + 1])
      ensures IsDigit(text[|PREFIX| + 3]) && IsDigit(text[|PREFIX| + 4])
      ensures IsDigit(text[|PREFIX| + 6]) && IsDigit(text[|PREFIX| + 7])
    {
      PREFIX + TwoDigits(hours) + [':'] + TwoDigits(minutes) + [':'] + TwoDigits(seconds) + ['\n']
    }
  }

  const PREFIX: seq<char> := "Current time is "

  /** `%02i` of a value below 100. */
  function TwoDigits(v: nat): (s: seq<char>)
    requires v < 100
    ensures |s| == 2 && IsDigit(s[0]) && IsDigit(s[1]) && ReadTwo(s) == v
  {
    [('0' as int + v / 10) as char, ('0' as int + v % 10) as char]
  }

  predicate IsDigit(c: char)
  {
    '0' <= c <= '9'
  }

  /** Two decimal digits are the `%02i` of the value they read as. */
  lemma ReadTwoRoundTrip(s: seq<char>)
    requires |s| == 2 && IsDigit(s[0]) && IsDigit(s[1])
    ensures ReadTwo(s) < 100 && TwoDigits(ReadTwo(s)) == s
  {
    var v := ReadTwo(s);
    var hi := s[0] as int - '0' as int;
    var lo := s[1] as int - '0' as int;
    assert v == hi * 10 + lo;
    assert v / 10 == hi && v % 10 == lo;
  }

  /** The value of two decimal digits. */
  function ReadTwo(s: seq<char>): int
    requires |s| == 2
  {
    (s[0] as int - '0' as int) * 10 + (s[1] as int - '0' as int)
  }
}
