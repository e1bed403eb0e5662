/** ProgressReporter: listens to the training log, counts the epochs the
    TensorFlow retraining reports as finished, adds up their elapsed times and
    estimates the time left. Durations are TimeSpan ticks (100 ns). */
module Progress {
  import opened Wrappers

  // ---------------------------------------------------------------------
  // Text

  /** `sub` occurs in `s` starting at index i. */
  ghost predicate OccursAt(s: string, sub: string, i: int)
  {
    0 <= i && i + |sub| <= |s| && s[i..i + |sub|] == sub
  }

  /** String.Contains (ordinal). */
  function Contains(s: string, sub: string): (found: bool)
    ensures sub == [] ==> found
    ensures found ==> |sub| <= |s|
  {
    if |s| < |sub| then false
    else if s[..|sub|] == sub then true
    else Contains(s[1..], sub)
  }

  /** Contains answers whether `sub` occurs somewhere in `s`. */
  lemma {:induction false} ContainsIffOccurs(s: string, sub: string)
    ensures Contains(s, sub) <==> exists i :: OccursAt(s, sub, i)
  {
    if |s| < |sub| {
    } else if s[..|sub|] == sub {
      assert OccursAt(s, sub, 0);
    } else {
      ContainsIffOccurs(s[1..], sub);
      forall i | OccursAt(s, sub, i)
        ensures i >= 1 && OccursAt(s[1..], sub, i - 1)
      {
        assert s[0..|sub|] == s[..|sub|];
        assert s[1..][i - 1..i - 1 + |sub|] == s[i..i + |sub|];
      }
      forall i | OccursAt(s[1..], sub, i)
        ensures OccursAt(s, sub, i + 1)
      {
        assert s[1..][i..i + |sub|] == s[i + 1..i + 1 + |sub|];
      }
    }
  }

  /** Char.IsWhiteSpace: the separators String.Split() cuts at. */
  predicate IsWhiteSpace(c: char)
  {
    ('\t' <= c <= '\r') || c == ' ' || c == '\U{0085}' || c == '\U{00A0}' || c == '\U{1680}'
    || ('\U{2000}' <= c <= '\U{200A}') || c == '\U{2028}' || c == '\U{2029}'
    || c == '\U{202F}' || c == '\U{205F}' || c == '\U{3000}'
  }

  /** Split().Last(): the text after the last white-space character (empty
      when the message ends in white space; the whole message when it holds
      none). */
  function LastWord(s: string): (w: string)
    ensures |w| <= |s| && w == s[|s| - |w|..]
    ensures forall k :: 0 <= k < |w| ==> !IsWhiteSpace(w[k])
    ensures |w| < |s| ==> IsWhiteSpace(s[|s| - |w| - 1])
  {
    if s == [] || IsWhiteSpace(s[|s| - 1]) then []
    else LastWord(s[..|s| - 1]) + [s[|s| - 1]]
  }

  /** TrimEnd(c): `s` without its trailing run of c. */
  function TrimEnd(s: string, c: char): (t: string)
    ensures |t| <= |s| && t == s[..|t|]
    ensures forall k :: |t| <= k < |s| ==> s[k] == c
    ensures t == [] || t[|t| - 1] != c
  {
    if s == [] || s[|s| - 1] != c then s
    else TrimEnd(s[..|s| - 1], c)
  }

  // ---------------------------------------------------------------------
  // TimeSpan.ParseExact(token, @"hh\:mm\:ss\.fffffff")

  const TicksPerDay: nat := 864_000_000_000

  predicate IsDigit(c: char)
  {
    '0' <= c <= '9'
  }

  predicate AllDigits(s: string)
  {
    forall k :: 0 <= k < |s| ==> IsDigit(s[k])
  }

  /** The decimal value of a string of digits. */
  function Number(s: string): nat
    requires AllDigits(s)
  {
    if s == [] then 0 else Number(s[..|s| - 1]) * 10 + (s[|s| - 1] as int - '0' as int)
  }

  function Pow10(n: nat): nat
  {
    if n == 0 then 1 else 10 * Pow10(n - 1)
  }

  /** n written in decimal with exactly `width` digits, zero-padded. */
  function Digits(n: nat, width: nat): (s: string)
    ensures |s| == width && AllDigits(s)
  {
    if width == 0 then [] else Digits(n / 10, width - 1) + [('0' as int + n % 10) as char]
  }

  lemma {:induction false} NumberOfDigits(n: nat, width: nat)
    requires n < Pow10(width)
    ensures Number(Digits(n, width)) == n
  {
    if width > 0 {
      NumberOfDigits(n / 10, width - 1);
      var s := Digits(n, width);
      assert s[..|s| - 1] == Digits(n / 10, width - 1);
    }
  }

  lemma {:induction false} DigitsOfNumber(s: string)
    requires AllDigits(s)
    ensures Digits(Number(s), |s|) == s
  {
    if s != [] {
      var p := s[..|s| - 1];
      DigitsOfNumber(p);
      assert Number(s) / 10 == Number(p);
      assert s == p + [s[|s| - 1]];
    }
  }

  /** The tick count of a time of day given by its fields. */
  function Ticks(hours: nat, minutes: nat, seconds: nat, fraction: nat): nat
  {
    ((hours * 60 + minutes) * 60 + seconds) * 10_000_000 + fraction
  }

  /** TimeSpan.ParseExact with the format hh\:mm\:ss\.fffffff: two digits of
      hours, a colon, two of minutes, a colon, two of seconds, a dot and seven
      digits of fraction, nothing else; hours at most 23, minutes and seconds
      at most 59. Anything else is a parse error (None). */
  function ParseDuration(token: string): (r: Option<nat>)
    ensures r.Some? ==> |token| == 16 && r.value < TicksPerDay
  {
    if |token| != 16 || token[2] != ':' || token[5] != ':' || token[8] != '.' then None
    else if !AllDigits(token[..2]) || !AllDigits(token[3..5]) || !AllDigits(token[6..8]) || !AllDigits(token[9..])
    then None
    else
      var h, m, s, f := Number(token[..2]), Number(token[3..5]), Number(token[6..8]), Number(token[9..]);
      if h > 23 || m > 59 || s > 59 then None
      else
        NumberBound(token[9..]);
        assert Pow10(7) == 10_000_000;
        TicksFields(h, m, s, f);
        Some(Ticks(h, m, s, f))
  }

  /** TimeSpan.ToString(@"hh\:mm\:ss\.fffffff") for a duration under a day. */
  function FormatDuration(ticks: nat): (token: string)
    requires ticks < TicksPerDay
    ensures |token| == 16
  {
    var totalSeconds := ticks / 10_000_000;
    Digits(totalSeconds / 3600, 2) + ":" + Digits(totalSeconds / 60 % 60, 2) + ":"
      + Digits(totalSeconds % 60, 2) + "." + Digits(ticks % 10_000_000, 7)
  }

  /** The fields of a duration under a day are recovered by division. */
  lemma TicksFields(h: nat, m: nat, s: nat, f: nat)
    requires h <= 23 && m <= 59 && s <= 59 && f < 10_000_000
    ensures Ticks(h, m, s, f) < TicksPerDay
    ensures Ticks(h, m, s, f) / 10_000_000 == (h * 60 + m) * 60 + s
    ensures Ticks(h, m, s, f) % 10_000_000 == f
    ensures ((h * 60 + m) * 60 + s) / 3600 == h
    ensures ((h * 60 + m) * 60 + s) / 60 % 60 == m
    ensures ((h * 60 + m) * 60 + s) % 60 == s
  {
  }

  lemma FieldsOfFormat(ticks: nat)
    requires ticks < TicksPerDay
    ensures var token := FormatDuration(ticks);
      token[2] == ':' && token[5] == ':' && token[8] == '.' &&
      token[..2] == Digits(ticks / 10_000_000 / 3600, 2) &&
      token[3..5] == Digits(ticks / 10_000_000 / 60 % 60, 2) &&
      token[6..8] == Digits(ticks / 10_000_000 % 60, 2) &&
      token[9..] == Digits(ticks % 10_000_000, 7)
  {
  }

  /** Parsing a formatted duration gives it back. */
  lemma ParseOfFormat(ticks: nat)
    requires ticks < TicksPerDay
    ensures ParseDuration(FormatDuration(ticks)) == Some(ticks)
  {
    var token := FormatDuration(ticks);
    var totalSeconds := ticks / 10_000_000;
    var h, m, s, f := totalSeconds / 3600, totalSeconds / 60 % 60, totalSeconds % 60, ticks % 10_000_000;
    FieldsOfFormat(ticks);
    assert Pow10(2) == 100 && Pow10(7) == 10_000_000;
    NumberOfDigits(h, 2);
    NumberOfDigits(m, 2);
    NumberOfDigits(s, 2);
    NumberOfDigits(f, 7);
    Recompose(ticks);
  }

  /** Reassembling the fields FormatDuration extracts gives the ticks back. */
  lemma Recompose(ticks: nat)
    ensures var total := ticks / 10_000_000;
      Ticks(total / 3600, total / 60 % 60, total % 60, ticks % 10_000_000) == ticks
  {
    var total := ticks / 10_000_000;
    var minutes := total / 60;
    assert total / 3600 == minutes / 60;
    assert (minutes / 60) * 60 + minutes % 60 == minutes;
    assert minutes * 60 + total % 60 == total;
    assert total * 10_000_000 + ticks % 10_000_000 == ticks;
  }

  /** Two tokens with the same fields and separators are equal. */
  lemma SameFields(a: string, b: string)
    requires |a| == 16 && |b| == 16
    requires a[..2] == b[..2] && a[3..5] == b[3..5] && a[6..8] == b[6..8] && a[9..] == b[9..]
    requires a[2] == b[2] && a[5] == b[5] && a[8] == b[8]
    ensures a == b
  {
    forall k | 0 <= k < 16
      ensures a[k] == b[k]
    {
      if k < 2 { assert a[k] == a[..2][k]; assert b[k] == b[..2][k]; }
      else if 3 <= k < 5 { assert a[k] == a[3..5][k - 3]; assert b[k] == b[3..5][k - 3]; }
      else if 6 <= k < 8 { assert a[k] == a[6..8][k - 6]; assert b[k] == b[6..8][k - 6]; }
      else if 9 <= k { assert a[k] == a[9..][k - 9]; assert b[k] == b[9..][k - 9]; }
    }
  }

  /** The formatting of a duration given by in-range fields shows those fields. */
  lemma FormatFields(h: nat, m: nat, s: nat, f: nat)
    requires h <= 23 && m <= 59 && s <= 59 && f < 10_000_000
    ensures Ticks(h, m, s, f) < TicksPerDay
    ensures var r := FormatDuration(Ticks(h, m, s, f));
      r[2] == ':' && r[5] == ':' && r[8] == '.' &&
      r[..2] == Digits(h, 2) && r[3..5] == Digits(m, 2) && r[6..8] == Digits(s, 2) && r[9..] == Digits(f, 7)
  {
    var t := Ticks(h, m, s, f);
    TicksFields(h, m, s, f);
    var total := (h * 60 + m) * 60 + s;
    assert t / 10_000_000 == total && t % 10_000_000 == f;
    assert total / 3600 == h && total / 60 % 60 == m && total % 60 == s;
    FieldsOfFormat(t);
  }

  /** The parser accepts exactly the formatted durations: whatever it accepts
      is under a day and is the formatting of the value it returns. */
  lemma FormatOfParse(token: string)
    requires ParseDuration(token).Some?
    ensures ParseDuration(token).value < TicksPerDay
    ensures FormatDuration(ParseDuration(token).value) == token
  {
    var hs, ms, ss, fs := token[..2], token[3..5], token[6..8], token[9..];
    assert |token| == 16 && token[2] == ':' && token[5] == ':' && token[8] == '.';
    assert AllDigits(hs) && AllDigits(ms) && AllDigits(ss) && AllDigits(fs);
    var h, m, s, f := Number(hs), Number(ms), Number(ss), Number(fs);
    assert h <= 23 && m <= 59 && s <= 59;
    assert ParseDuration(token).value == Ticks(h, m, s, f);
    NumberBound(fs);
    assert Pow10(7) == 10_000_000;
    FormatFields(h, m, s, f);
    DigitsOfNumber(hs);
    DigitsOfNumber(ms);
    DigitsOfNumber(ss);
    DigitsOfNumber(fs);
    SameFields(FormatDuration(Ticks(h, m, s, f)), token);
  }

  lemma {:induction false} NumberBound(s: string)
    requires AllDigits(s)
    ensures Number(s) < Pow10(|s|)
  {
    if s != [] {
      NumberBound(s[..|s| - 1]);
    }
  }

  // ---------------------------------------------------------------------
  // The reporter as a state machine over log messages

  /** A message from the TensorFlow retraining that reports an elapsed time. */
  predicate IsEpochMessage(message: string)
  {
    Contains(message, "TensorFlowTransformer") && Contains(message, "Elapsed")
  }

  /** The elapsed-time token: the last word with its trailing dots removed. */
  function DurationToken(message: string): string
  {
    TrimEnd(LastWord(message), '.')
  }

  /** The duration an epoch message adds: its parsed token, or nothing when
      the token does not parse. */
  function EpochDuration(message: string): nat
  {
    match ParseDuration(DurationToken(message))
    case Some(t) => t
    case None => 0
  }

  datatype ReporterState = ReporterState(finishCount: nat, elapsed: nat)

  /** The effect of one Log call on FinishCount and Elapsed. */
  function Step(epoch: int, st: ReporterState, message: string): (next: ReporterState)
    ensures next.finishCount == st.finishCount + (if IsEpochMessage(message) then 1 else 0)
    ensures next.elapsed >= st.elapsed
    ensures st.finishCount >= epoch ==> next.elapsed == st.elapsed
  {
    if !IsEpochMessage(message) then st
    else if st.finishCount + 1 > epoch then ReporterState(st.finishCount + 1, st.elapsed)
    else ReporterState(st.finishCount + 1, st.elapsed + EpochDuration(message))
  }

  /** The state after a whole sequence of Log calls on a fresh reporter. */
  function Replay(epoch: int, messages: seq<string>): (st: ReporterState)
    ensures st.finishCount <= |messages|
    ensures epoch <= 0 ==> st.elapsed == 0
  {
    if messages == [] then ReporterState(0, 0)
    else Step(epoch, Replay(epoch, messages[..|messages| - 1]), messages[|messages| - 1])
  }

  /** The epoch messages among `messages`, in order. */
  function EpochMessages(messages: seq<string>): (r: seq<string>)
    ensures |r| <= |messages|
    ensures forall k :: 0 <= k < |r| ==> IsEpochMessage(r[k])
  {
    if messages == [] then []
    else if IsEpochMessage(messages[|messages| - 1]) then EpochMessages(messages[..|messages| - 1]) + [messages[|messages| - 1]]
    else EpochMessages(messages[..|messages| - 1])
  }

  function SumDurations(messages: seq<string>): nat
  {
    if messages == [] then 0 else SumDurations(messages[..|messages| - 1]) + EpochDuration(messages[|messages| - 1])
  }

  /** How many of the first epoch messages count towards Elapsed. */
  function Counted(epoch: int, matched: nat): nat
  {
    if epoch <= 0 then 0 else if epoch < matched then epoch else matched
  }

  /** A message without both markers changes nothing. */
  lemma OtherMessagesIgnored(epoch: int, st: ReporterState, message: string)
    requires !Contains(message, "TensorFlowTransformer") || !Contains(message, "Elapsed")
    ensures Step(epoch, st, message) == st
  {
  }

  /** FinishCount counts every epoch message, also those past the last epoch. */
  lemma {:induction false} FinishCountCountsEpochMessages(epoch: int, messages: seq<string>)
    ensures Replay(epoch, messages).finishCount == |EpochMessages(messages)|
  {
    if messages != [] {
      FinishCountCountsEpochMessages(epoch, messages[..|messages| - 1]);
    }
  }

  /** Elapsed is the sum of the durations of the first `epoch` epoch
      messages; later ones add nothing. */
  lemma {:induction false} ElapsedSumsFirstEpochs(epoch: int, messages: seq<string>)
    ensures Replay(epoch, messages).elapsed ==
      SumDurations(EpochMessages(messages)[..Counted(epoch, |EpochMessages(messages)|)])
  {
    if messages != [] {
      var init := messages[..|messages| - 1];
      var last := messages[|messages| - 1];
      ElapsedSumsFirstEpochs(epoch, init);
      FinishCountCountsEpochMessages(epoch, init);
      var before := EpochMessages(init);
      if IsEpochMessage(last) {
        var after := before + [last];
        assert EpochMessages(messages) == after;
        if |before| + 1 > epoch {
          assert after[..Counted(epoch, |after|)] == before[..Counted(epoch, |before|)];
        } else {
          assert after[..Counted(epoch, |after|)] == after;
          assert before[..Counted(epoch, |before|)] == before;
          assert after[..|after| - 1] == before;
        }
      }
    }
  }

  /** Once FinishCount has reached Epoch, no later message changes Elapsed. */
  lemma ElapsedFrozenAfterLastEpoch(epoch: int, messages: seq<string>, later: seq<string>)
    requires Replay(epoch, messages).finishCount >= epoch
    ensures Replay(epoch, messages + later).elapsed == Replay(epoch, messages).elapsed
  {
    ElapsedSumsFirstEpochs(epoch, messages);
    ElapsedSumsFirstEpochs(epoch, messages + later);
    FinishCountCountsEpochMessages(epoch, messages);
    EpochMessagesAppend(messages, later);
    var m1 := EpochMessages(messages);
    var m2 := EpochMessages(messages + later);
    var c := Counted(epoch, |m1|);
    assert c <= |m1| && Counted(epoch, |m2|) == c;
    assert m2[..c] == m1[..c];
  }

  lemma {:induction false} EpochMessagesAppend(messages: seq<string>, later: seq<string>)
    ensures EpochMessages(messages + later) == EpochMessages(messages) + EpochMessages(later)
    decreases |later|
  {
    if later == [] {
      assert messages + later == messages;
    } else {
      var all := messages + later;
      assert all[..|all| - 1] == messages + later[..|later| - 1];
      EpochMessagesAppend(messages, later[..|later| - 1]);
    }
  }

  /** With one epoch (the reporter of VoiceConversion.Console) only the first
      epoch message's duration is ever added. */
  lemma SingleEpochElapsed(messages: seq<string>)
    ensures Replay(1, messages).elapsed ==
      if EpochMessages(messages) == [] then 0 else EpochDuration(EpochMessages(messages)[0])
  {
    ElapsedSumsFirstEpochs(1, messages);
    var m := EpochMessages(messages);
    if m != [] {
      assert m[..1][..0] == [];
    }
  }

  /** The estimate printed after each counted epoch, in seconds:
      (Elapsed / FinishCount) * Epoch - Elapsed. */
  function RemainingSeconds(epoch: int, st: ReporterState): (rest: real)
    requires st.finishCount > 0
    ensures rest == (st.elapsed as real / 10_000_000.0 / st.finishCount as real) * (epoch - st.finishCount) as real
  {
    var elapsed := st.elapsed as real / 10_000_000.0;
    var n := st.finishCount as real;
    assert (elapsed / n) * n == elapsed;
    (elapsed / n) * epoch as real - elapsed
  }

  /** The estimate is never negative before the last epoch and is zero at it. */
  lemma RemainingBounds(epoch: int, st: ReporterState)
    requires 1 <= st.finishCount <= epoch
    ensures RemainingSeconds(epoch, st) >= 0.0
    ensures st.finishCount == epoch ==> RemainingSeconds(epoch, st) == 0.0
  {
  }

  /** With one epoch, the only estimate ever printed (after the first epoch
      message) is zero. */
  lemma SingleEpochEstimateIsZero(messages: seq<string>)
    requires Replay(1, messages).finishCount == 1
    ensures RemainingSeconds(1, Replay(1, messages)) == 0.0
  {
    RemainingBounds(1, Replay(1, messages));
  }

  // ---------------------------------------------------------------------
  // The class

  datatype LogOutcome =
    | Ignored
    | PastLastEpoch
    /** TimeSpan.ParseExact threw: the count has already been raised. */
    | BadDuration
    | Reported(remainingSeconds: real)

  class ProgressReporter {
    var FinishCount: nat
    const Epoch: int
    /** Elapsed time of the counted epochs, in ticks. */
    var Elapsed: nat
    /** The messages logged so far. */
    ghost var Messages: seq<string>

    ghost predicate Valid()
      reads this
    {
      ReporterState(FinishCount, Elapsed) == Replay(Epoch, Messages)
    }

    constructor (epoch: int)
      ensures Valid() && Epoch == epoch && Messages == []
      ensures FinishCount == 0 && Elapsed == 0
    {
      Epoch := epoch;
      FinishCount := 0;
      Elapsed := 0;
      Messages := [];
    }

    /** The handler of MLContext.Log. */
    method Log(message: string) returns (outcome: LogOutcome)
      requires Valid()
      modifies this
      ensures Valid() && Messages == old(Messages) + [message]
      ensures ReporterState(FinishCount, Elapsed) == Step(Epoch, old(ReporterState(FinishCount, Elapsed)), message)
      ensures !IsEpochMessage(message) ==> outcome == Ignored
      ensures IsEpochMessage(message) && FinishCount > Epoch ==> outcome == PastLastEpoch
      ensures IsEpochMessage(message) && FinishCount <= Epoch ==>
        outcome == (if ParseDuration(DurationToken(message)).None? then BadDuration
                    else Reported(RemainingSeconds(Epoch, ReporterState(FinishCount, Elapsed))))
    {
      Messages := Messages + [message];
      assert Messages[..|Messages| - 1] == old(Messages);
      if !Contains(message, "TensorFlowTransformer") {
        return Ignored;
      }
      if !Contains(message, "Elapsed") {
        return Ignored;
      }
      FinishCount := FinishCount + 1;
      if FinishCount > Epoch {
        return PastLastEpoch;
      }
      var elapsedLike := TrimEnd(LastWord(message), '.');
      var currentElapsed := ParseDuration(elapsedLike);
      if currentElapsed.None? {
        return BadDuration;
      }
      Elapsed := Elapsed + currentElapsed.value;
      var rest := RemainingSeconds(Epoch, ReporterState(FinishCount, Elapsed));
      return Reported(rest);
    }
  }
}
