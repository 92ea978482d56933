/** The checkpoint directories' names: written by LeRobot's rule, read back by the uploader. */
module StepNames {

  import opened Text

  function Zeros(n: nat): (s: string)
    ensures |s| == n
  {
    if n == 0 then [] else ['0'] + Zeros(n - 1)
  }

  /** `f"{step:0{max(6, len(str(total_steps)))}d}"`. */
  function StepId(step: nat, totalSteps: nat): string {
    var digits := Decimal(step);
    var width := if |Decimal(totalSteps)| > 6 then |Decimal(totalSteps)| else 6;
    if |digits| < width then Zeros(width - |digits|) + digits else digits
  }

  predicate IsDigits(s: string) { s != [] && forall i :: 0 <= i < |s| ==> '0' <= s[i] <= '9' }

  /** `int(name)` of a name of digits. */
  function Value(s: string): nat
    requires forall i :: 0 <= i < |s| ==> '0' <= s[i] <= '9'
  {
    if s == [] then 0 else 10 * Value(s[..|s| - 1]) + (s[|s| - 1] as int - '0' as int)
  }

  lemma DigitValue(n: nat)
    requires n < 10
    ensures Digit(n) as int == '0' as int + n
  {
  }

  lemma {:induction false} DecimalValue(n: nat)
    ensures Value(Decimal(n)) == n
  {
    var s := Decimal(n);
    DigitValue(n % 10);
    assert s[|s| - 1] == Digit(n % 10);
    if n >= 10 {
      DecimalValue(n / 10);
      assert s[..|s| - 1] == Decimal(n / 10);
    } else {
      assert s[..|s| - 1] == [];
    }
  }

  lemma {:induction false} ZerosValue(n: nat, s: string)
    requires forall i :: 0 <= i < |s| ==> '0' <= s[i] <= '9'
    ensures forall i :: 0 <= i < n + |s| ==> '0' <= (Zeros(n) + s)[i] <= '9'
    ensures Value(Zeros(n) + s) == Value(s)
    decreases n, |s|
  {
    ZerosAreZero(n);
    var t := Zeros(n) + s;
    if s != [] {
      ZerosValue(n, s[..|s| - 1]);
      assert t[..|t| - 1] == Zeros(n) + s[..|s| - 1];
    } else if n > 0 {
      ZerosValue(n - 1, []);
      ZerosAreZero(n - 1);
      assert t[..|t| - 1] == Zeros(n - 1) + [];
      assert t[|t| - 1] == '0';
    }
  }

  lemma {:induction false} ZerosAreZero(n: nat)
    ensures forall i :: 0 <= i < n ==> Zeros(n)[i] == '0'
  {
    if n > 0 { ZerosAreZero(n - 1); }
  }

  lemma PaddedReads(n: nat, step: nat)
    ensures IsDigits(Zeros(n) + Decimal(step)) && Value(Zeros(n) + Decimal(step)) == step
  {
    DecimalValue(step);
    ZerosValue(n, Decimal(step));
  }

  /** Every directory name is read back as its step. */
  lemma StepIdReads(step: nat, totalSteps: nat)
    ensures IsDigits(StepId(step, totalSteps)) && Value(StepId(step, totalSteps)) == step
  {
    var digits := Decimal(step);
    var width := if |Decimal(totalSteps)| > 6 then |Decimal(totalSteps)| else 6;
    if |digits| < width { PaddedReads(width - |digits|, step); } else { DecimalValue(step); }
  }

  lemma {:induction false} LongerDecimal(m: nat, n: nat)
    requires m <= n
    ensures |Decimal(m)| <= |Decimal(n)|
  {
    if m >= 10 { LongerDecimal(m / 10, n / 10); }
  }

  /** The names of one run are all of one length. */
  lemma StepIdWidth(step: nat, totalSteps: nat)
    requires step <= totalSteps
    ensures |StepId(step, totalSteps)| == if |Decimal(totalSteps)| > 6 then |Decimal(totalSteps)| else 6
  {
    LongerDecimal(step, totalSteps);
  }
}
