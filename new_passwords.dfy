/** The password rule of the newer generation (new/security_utils.py): a
    single length test, with no look at the characters. */
module NewPasswords {

  const MinLength: nat := 4

  function ValidatePasswordComplexity(password: string): bool {
    if |password| < MinLength then false else true
  }

  /** Strings shorter than four characters are refused. */
  lemma RejectsShort(password: string)
    requires |password| < MinLength
    ensures !ValidatePasswordComplexity(password)
  {
  }

  /** Every string of four or more characters is accepted, whatever it holds. */
  lemma AcceptsAnyLongEnough(password: string)
    requires |password| >= MinLength
    ensures ValidatePasswordComplexity(password)
  {
  }

  /** The verdict depends on the length alone. */
  lemma LengthOnly(a: string, b: string)
    requires |a| == |b|
    ensures ValidatePasswordComplexity(a) == ValidatePasswordComplexity(b)
  {
  }

  /** Acceptance is monotone in the length. */
  lemma Monotone(a: string, b: string)
    requires ValidatePasswordComplexity(a) && |a| <= |b|
    ensures ValidatePasswordComplexity(b)
  {
  }
}
