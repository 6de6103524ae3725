/**
 * The one-time-password entry screen: six single-digit boxes, focus that
 * follows typing and backspace, a paste path that spreads a whole code over
 * the boxes, a resend countdown, and the guard on the Verify button.
 */
module OtpVerification {
  import opened Text

  /** Number of boxes. */
  const OtpLength: nat := 6
  /** Seconds the user waits before a new code may be requested. */
  const ResendSeconds: nat := 30
  /** Focus value meaning that no box holds the focus. */
  const NoFocus: int := -1
  /** The key name the text input reports for backspace. */
  const BackspaceKey: string := "Backspace"
  /** The route opened after a successful verification. */
  const VerifiedRoute: string := "BottomNav"

  function Min(a: int, b: int): int { if a <= b then a else b }

  /** What a single box may hold: nothing, or one ASCII digit. */
  predicate IsBoxValue(b: string) {
    b == "" || (|b| == 1 && IsDigit(b[0]))
  }

  /** The buffer invariant: six boxes, each empty or one digit. */
  predicate ValidBoxes(b: seq<string>) {
    |b| == OtpLength && forall i | 0 <= i < |b| :: IsBoxValue(b[i])
  }

  /** The empty buffer the screen starts with and that resend restores. */
  function EmptyBoxes(): (b: seq<string>)
    ensures ValidBoxes(b) && forall i | 0 <= i < |b| :: b[i] == ""
  {
    seq(OtpLength, _ => "")
  }

  /** `value.replace(/\D/g, '')`: the digits of the typed text, in order. */
  function DigitsOnly(value: string): (r: string)
    ensures |r| <= |value|
    ensures forall i | 0 <= i < |r| :: IsDigit(r[i])
    ensures IsSubsequence(r, value)
    ensures forall c :: multiset(r)[c] == if IsDigit(c) then multiset(value)[c] else 0
  {
    Keep(value, IsDigit)
  }

  /** Stripping non-digits twice changes nothing more than stripping once. */
  lemma DigitsOnlyIdempotent(value: string)
    ensures DigitsOnly(DigitsOnly(value)) == DigitsOnly(value)
  {
    KeepIdempotent(value, IsDigit);
  }

  /** The buffer after a paste: box `i` gets the `i`-th digit, or "" past the end. */
  function PastedBoxes(digits: string): (b: seq<string>)
    requires forall i | 0 <= i < |digits| :: IsDigit(digits[i])
    ensures ValidBoxes(b)
  {
    seq(OtpLength, i requires 0 <= i < OtpLength => if i < |digits| then [digits[i]] else "")
  }

  /** `otp.join('')`. */
  function Join(b: seq<string>): string
  {
    if b == [] then "" else b[0] + Join(b[1..])
  }

  /** Number of boxes that hold something. */
  function FilledCount(b: seq<string>): nat
  {
    if b == [] then 0 else (if b[0] != "" then 1 else 0) + FilledCount(b[1..])
  }

  /** `isComplete`: every box is non-empty and trims to exactly one character. */
  predicate IsComplete(b: seq<string>)
  {
    forall i | 0 <= i < |b| :: b[i] != "" && |Trim(b[i])| == 1
  }

  /** `isButtonDisabled`. */
  predicate IsButtonDisabled(b: seq<string>, isLoading: bool)
  {
    !IsComplete(b) || isLoading
  }

  /** The joined code has one character per filled box. */
  lemma {:induction false} JoinLength(b: seq<string>)
    requires forall i | 0 <= i < |b| :: IsBoxValue(b[i])
    ensures |Join(b)| == FilledCount(b) <= |b|
    ensures forall i | 0 <= i < |Join(b)| :: IsDigit(Join(b)[i])
  {
    if b != [] {
      JoinLength(b[1..]);
    }
  }

  /** A valid buffer is complete exactly when every box holds one digit. */
  lemma CompleteIffAllDigits(b: seq<string>)
    requires ValidBoxes(b)
    ensures IsComplete(b) <==> forall i | 0 <= i < |b| :: |b[i]| == 1
  {
    forall i | 0 <= i < |b| && b[i] != ""
      ensures Trim(b[i]) == b[i]
    {
      assert TrimStart(b[i]) == b[i];
      assert TrimEnd(b[i]) == b[i];
    }
  }

  lemma {:induction false} FilledCountAll(b: seq<string>)
    ensures FilledCount(b) == |b| <==> forall i | 0 <= i < |b| :: b[i] != ""
  {
    if b != [] {
      FilledCountAll(b[1..]);
      assert FilledCount(b[1..]) <= |b[1..]| by { FilledCountBound(b[1..]); }
    }
  }

  lemma {:induction false} FilledCountBound(b: seq<string>)
    ensures FilledCount(b) <= |b|
  {
    if b != [] {
      FilledCountBound(b[1..]);
    }
  }

  /** On a valid buffer, the code has six characters exactly when the buffer is complete. */
  lemma CodeLengthIffComplete(b: seq<string>)
    requires ValidBoxes(b)
    ensures IsComplete(b) <==> |Join(b)| == OtpLength
  {
    JoinLength(b);
    FilledCountAll(b);
    CompleteIffAllDigits(b);
  }

  /** The tail of a pasted buffer from box `k` joins to the digits from `k` up to the sixth. */
  lemma {:induction false} PastedSuffixJoin(digits: string, k: nat)
    requires forall i | 0 <= i < |digits| :: IsDigit(digits[i])
    requires k <= OtpLength
    ensures Join(PastedBoxes(digits)[k..]) == digits[Min(k, |digits|)..Min(OtpLength, |digits|)]
    decreases OtpLength - k
  {
    var b := PastedBoxes(digits);
    if k < OtpLength {
      PastedSuffixJoin(digits, k + 1);
      assert b[k..][1..] == b[k + 1..];
      if k < |digits| {
        assert digits[k..Min(OtpLength, |digits|)]
            == [digits[k]] + digits[k + 1..Min(OtpLength, |digits|)];
      }
    }
  }

  /** Pasting a code and joining the boxes gives back its first six digits. */
  lemma PasteRoundTrip(digits: string)
    requires forall i | 0 <= i < |digits| :: IsDigit(digits[i])
    ensures Join(PastedBoxes(digits)) == digits[..Min(OtpLength, |digits|)]
  {
    PastedSuffixJoin(digits, 0);
    assert PastedBoxes(digits)[0..] == PastedBoxes(digits);
  }

  /** The state update of one interval tick: `t > 0 ? t - 1 : 0`. */
  function TickValue(t: nat): (r: nat)
    ensures r <= t && (t > 0 ==> r < t)
  {
    if t > 0 then t - 1 else 0
  }

  /** The countdown after `n` ticks. */
  function TickMany(t: nat, n: nat): nat
  {
    if n == 0 then t else TickMany(TickValue(t), n - 1)
  }

  /** After `n` ticks the countdown shows `t - n`, stopping at 0. */
  lemma {:induction false} TickManyValue(t: nat, n: nat)
    ensures TickMany(t, n) == if n <= t then t - n else 0
  {
    if n > 0 {
      TickManyValue(TickValue(t), n - 1);
    }
  }

  /** The interval that drives the countdown runs only while the timer is positive. */
  predicate TickScheduled(t: nat) {
    t > 0
  }

  /** A full countdown from the resend value reaches 0 and no tick is pending after it. */
  lemma CountdownEnds()
    ensures TickMany(ResendSeconds, ResendSeconds) == 0
    ensures !TickScheduled(TickMany(ResendSeconds, ResendSeconds))
  {
    TickManyValue(ResendSeconds, ResendSeconds);
  }

  /** `String(n)`: the decimal digits of `n`, without leading zeros. */
  function DecimalString(n: nat): (r: string)
    ensures |r| >= 1
    ensures forall i | 0 <= i < |r| :: IsDigit(r[i])
  {
    if n < 10 then [('0' as int + n) as char]
    else DecimalString(n / 10) + [('0' as int + n % 10) as char]
  }

  /** The number a string of decimal digits denotes. */
  function DecimalValue(s: string): nat
    requires forall i | 0 <= i < |s| :: IsDigit(s[i])
  {
    if s == [] then 0
    else
      assert IsDigit(s[|s| - 1]);
      DecimalValue(s[..|s| - 1]) * 10 + (s[|s| - 1] as int - '0' as int)
  }

  /** `s.padStart(width, fill)` for a one-character fill. */
  function PadStart(s: string, width: nat, fill: char): (r: string)
    ensures |r| == if |s| >= width then |s| else width
  {
    if |s| >= width then s else seq(width - |s|, _ => fill) + s
  }

  /** The label shown while counting down: `00:` and the seconds padded to two digits. */
  function ResendLabel(t: nat): string
  {
    "00:" + PadStart(DecimalString(t), 2, '0')
  }

  /** Reading back the decimal string of `n` gives `n`. */
  lemma {:induction false} DecimalRoundTrip(n: nat)
    ensures DecimalValue(DecimalString(n)) == n
  {
    if n >= 10 {
      DecimalRoundTrip(n / 10);
      var s := DecimalString(n);
      assert s[..|s| - 1] == DecimalString(n / 10);
    }
  }

  /** A leading zero does not change the value of a digit string. */
  lemma {:induction false} LeadingZero(s: string)
    requires forall i | 0 <= i < |s| :: IsDigit(s[i])
    ensures DecimalValue("0" + s) == DecimalValue(s)
    decreases |s|
  {
    if s != [] {
      var z := "0" + s;
      assert z[..|z| - 1] == "0" + s[..|s| - 1];
      LeadingZero(s[..|s| - 1]);
    }
  }

  /** `String(n)` has two characters or fewer below 100. */
  lemma DecimalStringShort(n: nat)
    requires n < 100
    ensures |DecimalString(n)| <= 2
  {
  }

  /**
   * For every value the countdown can take, the label is five characters,
   * starts with `00:`, and its last two characters read back as the timer.
   */
  lemma ResendLabelReadsBack(t: nat)
    requires t < 100
    ensures |ResendLabel(t)| == 5 && ResendLabel(t)[..3] == "00:"
    ensures forall i | 3 <= i < 5 :: IsDigit(ResendLabel(t)[i])
    ensures DecimalValue(ResendLabel(t)[3..]) == t
  {
    var d := DecimalString(t);
    DecimalStringShort(t);
    DecimalRoundTrip(t);
    var padded := PadStart(d, 2, '0');
    if |d| < 2 {
      assert padded == "0" + d;
      LeadingZero(d);
    }
    assert ResendLabel(t)[3..] == padded;
  }

  /**
   * The screen's state: the six boxes (a fixed array written in place), the
   * box that holds the focus, the resend countdown and the loading flag.
   */
  class OtpEntry {
    const boxes: array<string>
    var focus: int
    var timer: nat
    var isLoading: bool

    ghost predicate Valid()
      reads this, boxes
    {
      && boxes.Length == OtpLength
      && ValidBoxes(boxes[..])
      && NoFocus <= focus < OtpLength
    }

    /** The screen as first shown: empty boxes, nothing focused, a full countdown. */
    constructor ()
      ensures Valid() && fresh(boxes)
      ensures boxes[..] == EmptyBoxes()
      ensures focus == NoFocus && timer == ResendSeconds && !isLoading
    {
      boxes := new string[OtpLength](_ => "");
      focus := NoFocus;
      timer := ResendSeconds;
      isLoading := false;
    }

    /**
     * `code`: at most six digits, and exactly six when the boxes are
     * complete, which is when the verify button can be enabled.
     */
    function Code(): (r: string)
      requires Valid()
      reads this, boxes
      ensures |r| <= OtpLength
      ensures forall i | 0 <= i < |r| :: IsDigit(r[i])
      ensures |r| == OtpLength <==> IsComplete(boxes[..])
    {
      JoinLength(boxes[..]);
      CodeLengthIffComplete(boxes[..]);
      Join(boxes[..])
    }

    /** The user touches box `index`, which takes the focus. */
    method Tap(index: nat)
      requires Valid() && index < OtpLength
      modifies this
      ensures Valid() && focus == index
      ensures boxes[..] == old(boxes[..]) && timer == old(timer) && isLoading == old(isLoading)
    {
      focus := index;
    }

    /**
     * `handleChange(index, value)`. The non-digits are dropped. More than one
     * digit left is a paste: the whole buffer becomes the first six digits,
     * padded with empty boxes, and the focus goes to the box of the last
     * pasted digit. Otherwise only box `index` is written, and the focus
     * moves on when a digit was stored in a box before the last one.
     */
    method HandleChange(index: nat, value: string)
      requires Valid() && index < OtpLength
      modifies this, boxes
      ensures Valid()
      ensures timer == old(timer) && isLoading == old(isLoading)
      ensures var s := DigitsOnly(value);
        if |s| > 1 then
          && boxes[..] == PastedBoxes(s)
          && focus == Min(OtpLength - 1, |s| - 1)
        else
          && boxes[..] == old(boxes[..])[index := s]
          && focus == if s != "" && index < OtpLength - 1 then index + 1 else old(focus)
    {
      var sanitized := DigitsOnly(value);
      if |sanitized| > 1 {
        WritePaste(sanitized);
        focus := Min(OtpLength - 1, |sanitized| - 1);
        return;
      }
      boxes[index] := sanitized;
      if sanitized != "" && index < OtpLength - 1 {
        focus := index + 1;
      }
    }

    /** The pasting branch's loop: box `i` receives the `i`-th digit, or "" past the last one. */
    method WritePaste(digits: string)
      requires boxes.Length == OtpLength
      requires forall i | 0 <= i < |digits| :: IsDigit(digits[i])
      modifies boxes
      ensures boxes[..] == PastedBoxes(digits)
    {
      ghost var pasted := PastedBoxes(digits);
      for i := 0 to OtpLength
        invariant forall j | 0 <= j < i :: boxes[j] == pasted[j]
      {
        boxes[i] := if i < |digits| then [digits[i]] else "";
      }
      assert boxes[..] == pasted;
    }

    /**
     * `handleKeyPress(index, key)`: backspace on an empty box other than the
     * first moves the focus one box back. No box is ever written here.
     */
    method HandleKeyPress(index: nat, key: string)
      requires Valid() && index < OtpLength
      modifies this
      ensures Valid()
      ensures boxes[..] == old(boxes[..]) && timer == old(timer) && isLoading == old(isLoading)
      ensures focus == if key == BackspaceKey && boxes[index] == "" && index > 0
                       then index - 1 else old(focus)
    {
      if key == BackspaceKey && boxes[index] == "" && index > 0 {
        focus := index - 1;
      }
    }

    /** One firing of the countdown interval. */
    method Tick()
      requires Valid()
      modifies this
      ensures Valid()
      ensures timer == TickValue(old(timer))
      ensures boxes[..] == old(boxes[..]) && focus == old(focus) && isLoading == old(isLoading)
    {
      timer := if timer > 0 then timer - 1 else 0;
    }

    /**
     * `handleResend`: nothing while the countdown runs; at 0 the boxes are
     * cleared, the first box takes the focus and the countdown restarts.
     */
    method HandleResend()
      requires Valid()
      modifies this, boxes
      ensures Valid() && isLoading == old(isLoading)
      ensures old(timer) > 0 ==>
        boxes[..] == old(boxes[..]) && focus == old(focus) && timer == old(timer)
      ensures old(timer) == 0 ==>
        boxes[..] == EmptyBoxes() && focus == 0 && timer == ResendSeconds
    {
      if timer > 0 {
        return;
      }
      for i := 0 to OtpLength
        modifies boxes
        invariant forall j | 0 <= j < i :: boxes[j] == ""
      {
        boxes[i] := "";
      }
      assert boxes[..] == EmptyBoxes();
      focus := 0;
      timer := ResendSeconds;
    }

    /**
     * The start of `handleVerify`: nothing happens unless the code is
     * complete and no verification is under way; then loading starts.
     */
    method BeginVerify() returns (started: bool)
      requires Valid()
      modifies this
      ensures Valid()
      ensures started == !IsButtonDisabled(old(boxes[..]), old(isLoading))
      ensures isLoading == (old(isLoading) || started)
      ensures boxes[..] == old(boxes[..]) && focus == old(focus) && timer == old(timer)
    {
      if !IsComplete(boxes[..]) || isLoading {
        return false;
      }
      isLoading := true;
      started := true;
    }

    /** The end of `handleVerify`: loading stops and the app moves on. */
    method FinishVerify() returns (route: string)
      requires Valid() && isLoading
      modifies this
      ensures Valid() && !isLoading && route == VerifiedRoute
      ensures boxes[..] == old(boxes[..]) && focus == old(focus) && timer == old(timer)
    {
      isLoading := false;
      route := VerifiedRoute;
    }
  }
}
