/**
  The arguments of the admin commands `/cdraw PRIZE TIME [WINNERS]` and
  `/ddelete #ID`, as the handlers read them from the words of the message.
*/
module DrawCommand {
  import opened Wrappers
  import opened JsString
  import opened Records

  const MinuteMs: int := 60000
  const HourMs: int := 3600000
  const DayMs: int := 86400000
  const MinDurationMs: int := 60000   // the computed duration is never below a minute

  /** Russian time words; a word counts as one if its lower-cased form contains any of them. */
  const TimeWords: seq<string> := ["мин", "минут", "минута", "час", "часа", "часов", "день", "дня", "дней", "дн"]

  predicate IsTimeWord(w: string) {
    exists t :: t in TimeWords && Contains(ToLower(w), t)
  }

  /** A text containing a word contains every prefix of that word. */
  lemma {:induction false} ContainsPrefix(s: string, t: string, p: string)
    requires StartsWith(t, p) && Contains(s, t)
    ensures Contains(s, p)
    decreases |s|
  {
    if StartsWith(s, t) {
      assert s[..|p|] == s[..|t|][..|p|];
    } else {
      ContainsPrefix(s[1..], t, p);
    }
  }

  /**
    The ten time words come down to four stems: a word is a time word
    exactly when its lower-cased form contains "мин", "час", "дн" or "день".
  */
  lemma TimeWordStems(w: string)
    ensures IsTimeWord(w) <==>
      var l := ToLower(w);
      Contains(l, "мин") || Contains(l, "час") || Contains(l, "дн") || Contains(l, "день")
  {
    var l := ToLower(w);
    if IsTimeWord(w) {
      var t :| t in TimeWords && Contains(l, t);
      if t == "минут" || t == "минута" {
        ContainsPrefix(l, t, "мин");
      } else if t == "часа" || t == "часов" {
        ContainsPrefix(l, t, "час");
      } else if t == "дня" || t == "дней" {
        ContainsPrefix(l, t, "дн");
      }
    }
    assert "мин" in TimeWords && "час" in TimeWords && "дн" in TimeWords && "день" in TimeWords;
  }

  lemma EmptyIsNoTimeWord()
    ensures !IsTimeWord("")
  {
    assert ToLower("") == "";
    forall t | t in TimeWords ensures !Contains("", t) {
      assert |t| > 0;
    }
  }

  /** What `/cdraw` derives from its arguments. */
  datatype DrawRequest = DrawRequest(prize: string, durationMs: int, winnersCount: nat, timeStr: string)

  datatype CommandError = Usage | InvalidId

  /** `Math.max(1, Math.min(n, 100))` */
  function ClampWinners(n: int): (k: nat)
    ensures 1 <= k <= MaxWinners
    ensures 1 <= n <= MaxWinners ==> k == n
    ensures n > MaxWinners ==> k == MaxWinners
    ensures n < 1 ==> k == 1
  {
    if n > MaxWinners then MaxWinners else if n < 1 then 1 else n
  }

  /**
    The duration of the time text: its leading number (1 if there is none
    or it is 0) times a minute, hour or day, by the first unit word found,
    case-sensitively, in that order; one hour when no unit matches; never
    less than a minute.
  */
  function DurationMs(timeStr: string): (ms: int)
    ensures ms >= MinDurationMs
    ensures var n := ParseInt(timeStr);
      var num := if n.None? || n.value == 0 then 1 else n.value;
      var unit := if Contains(timeStr, "мин") then MinuteMs
        else if Contains(timeStr, "час") then HourMs
        else if Contains(timeStr, "ден") || Contains(timeStr, "дн") || Contains(timeStr, "день") then DayMs
        else 0;
      && (unit == 0 ==> ms == HourMs)
      && (unit != 0 && num * unit >= MinDurationMs ==> ms == num * unit)
      && (unit != 0 && num <= 0 ==> ms == MinDurationMs)
  {
    var n := ParseInt(timeStr);
    var num := if n.None? || n.value == 0 then 1 else n.value;
    var ms :=
      if Contains(timeStr, "мин") then num * MinuteMs
      else if Contains(timeStr, "час") then num * HourMs
      else if Contains(timeStr, "ден") || Contains(timeStr, "дн") || Contains(timeStr, "день") then num * DayMs
      else HourMs;
    if ms < MinDurationMs then MinDurationMs else ms
  }

  /**
    Reads `/cdraw` arguments (the message text without the command, trimmed
    and split on single spaces). The prize is the first word; the last word
    is the number of winners, clamped to 1..100, when it is all digits and
    the word before it is a time word; the words in between are the time.
  */
  function ParseDrawCommand(parts: seq<string>): (r: Result<DrawRequest, CommandError>)
    ensures r.Success? <==> |parts| >= 2
    ensures r.Success? ==>
      && r.value.prize == parts[0]
      && 1 <= r.value.winnersCount <= MaxWinners
      && r.value.durationMs >= MinDurationMs
      && r.value.durationMs == DurationMs(r.value.timeStr)
    ensures |parts| >= 3 && AllDigits(parts[|parts| - 1]) && IsTimeWord(parts[|parts| - 2]) ==>
      && r.value.winnersCount == ClampWinners(Value(parts[|parts| - 1], false))
      && r.value.timeStr == Join(parts[1..|parts| - 1], " ")
    ensures r.Success? && !(|parts| >= 3 && AllDigits(parts[|parts| - 1]) && IsTimeWord(parts[|parts| - 2])) ==>
      && r.value.winnersCount == 1
      && r.value.timeStr == Join(parts[1..], " ")
  {
    if |parts| < 2 then Failure(Usage)
    else
      var timeParts := parts[1..];
      var last := timeParts[|timeParts| - 1];
      var prev := if |timeParts| >= 2 then timeParts[|timeParts| - 2] else "";
      var countGiven := AllDigits(last) && IsTimeWord(prev);
      var winners := if countGiven then ClampWinners(Value(last, false)) else 1;
      var timeStr := Join(if countGiven then timeParts[..|timeParts| - 1] else timeParts, " ");
      EmptyIsNoTimeWord();
      assert countGiven ==> |timeParts| >= 2;
      assert timeParts[..|timeParts| - 1] == parts[1..|parts| - 1];
      Success(DrawRequest(parts[0], DurationMs(timeStr), winners, timeStr))
  }

  /**
    The number of winners given on the command line is parseInt of the
    last word, which for an all-digit word is its decimal value.
  */
  lemma WinnersWordIsParsed(parts: seq<string>)
    requires |parts| >= 3 && AllDigits(parts[|parts| - 1]) && IsTimeWord(parts[|parts| - 2])
    ensures ParseDrawCommand(parts).Success?
    ensures var n := ParseInt(parts[|parts| - 1]);
      n.Some? && ParseDrawCommand(parts).value.winnersCount == ClampWinners(n.value)
  {
    ParseIntOfDigits(parts[|parts| - 1]);
  }

  /**
    Reads the `/ddelete` argument: parseInt of the word with its first '#'
    removed; NaN and 0 are rejected.
  */
  function ParseDrawId(parts: seq<string>): (r: Result<int, CommandError>)
    ensures |parts| < 2 <==> r == Failure(Usage)
    ensures r.Success? ==> r.value != 0 && ParseInt(RemoveFirst(parts[1], '#')) == Some(r.value)
    ensures |parts| >= 2 && r.Failure? ==> ParseInt(RemoveFirst(parts[1], '#')) in {None, Some(0)}
  {
    if |parts| < 2 then Failure(Usage)
    else
      match ParseInt(RemoveFirst(parts[1], '#'))
      case Some(id) => if id == 0 then Failure(InvalidId) else Success(id)
      case None => Failure(InvalidId)
  }
}
