/** The password rule of the older generation (medmatch/security_utils.py):
    8 to 10 characters over letters, digits and `@#$%&*`, with at least one
    special character and at least one letter or digit. The alphabet test is
    a regular expression anchored with `$`, which in Python's `re` also
    matches just before a final newline. */
module MedmatchPasswords {

  predicate IsAsciiLetterOrDigit(c: char) {
    'a' <= c <= 'z' || 'A' <= c <= 'Z' || '0' <= c <= '9'
  }

  predicate IsSpecial(c: char) {
    c == '@' || c == '#' || c == '$' || c == '%' || c == '&' || c == '*'
  }

  /** The character class `[a-zA-Z0-9@#$%&*]`. */
  predicate IsAllowed(c: char) {
    IsAsciiLetterOrDigit(c) || IsSpecial(c)
  }

  predicate HasSpecial(s: string) {
    exists i | 0 <= i < |s| :: IsSpecial(s[i])
  }

  predicate HasLetterOrDigit(s: string) {
    exists i | 0 <= i < |s| :: IsAsciiLetterOrDigit(s[i])
  }

  /** Length of the longest prefix of allowed characters: how far the greedy
      `[...]+` runs. */
  function AllowedRun(s: string): (n: nat)
    ensures n <= |s|
    ensures forall i | 0 <= i < n :: IsAllowed(s[i])
    ensures n < |s| ==> !IsAllowed(s[n])
  {
    if s == [] || !IsAllowed(s[0]) then 0 else 1 + AllowedRun(s[1..])
  }

  /** Python's `$` (without MULTILINE): end of text, or just before a
      newline that ends the text. */
  predicate DollarAt(s: string, n: int) {
    n == |s| || (0 <= n == |s| - 1 && s[n] == '\n')
  }

  /** `re.match(r'^[a-zA-Z0-9@#$%&*]+$', s)`: the greedy run is non-empty and
      stops where `$` holds. Backing off the greedy run cannot help, since
      `$` needs the end of the text or a final newline, and neither lies
      inside the run. */
  predicate AlphabetMatch(s: string) {
    var n := AllowedRun(s);
    n >= 1 && DollarAt(s, n)
  }

  /** `validate_password_complexity`, guard by guard. */
  function ValidatePasswordComplexity(password: string): bool {
    if |password| < 8 || |password| > 10 then false
    else if !AlphabetMatch(password) then false
    else if !HasSpecial(password) then false
    else if !HasLetterOrDigit(password) then false
    else true
  }

  /** Character by character, the function accepts exactly the 8 to 10
      character strings with a special character and a letter or digit whose
      characters are all allowed, except that the last may be a newline. */
  lemma ValidateCharacterwise(password: string)
    ensures ValidatePasswordComplexity(password) <==>
      && 8 <= |password| <= 10
      && HasSpecial(password)
      && HasLetterOrDigit(password)
      && forall i | 0 <= i < |password| ::
           IsAllowed(password[i]) || (i == |password| - 1 && password[i] == '\n')
  {
    var n := AllowedRun(password);
    if 8 <= |password| <= 10 &&
       forall i | 0 <= i < |password| :: IsAllowed(password[i]) || (i == |password| - 1 && password[i] == '\n')
    {
      assert IsAllowed(password[0]);
    }
  }

  /** Passwords outside 8..10 characters are refused. */
  lemma RejectsBadLength(password: string)
    requires |password| < 8 || |password| > 10
    ensures !ValidatePasswordComplexity(password)
  {
  }

  /** What the doc comment promises ("Min 8, Max 10, Alphanumeric + Special
      Char") is accepted. */
  lemma AcceptsDocumentedPasswords(password: string)
    requires 8 <= |password| <= 10
    requires forall i | 0 <= i < |password| :: IsAllowed(password[i])
    requires HasSpecial(password) && HasLetterOrDigit(password)
    ensures ValidatePasswordComplexity(password)
  {
    ValidateCharacterwise(password);
  }

  /** The `$` anchor lets a password with a final newline through, although
      a newline is outside the allowed alphabet. */
  lemma TrailingNewlineAccepted()
    ensures ValidatePasswordComplexity("Abc@123\n")
    ensures !IsAllowed("Abc@123\n"[7])
  {
    var p := "Abc@123\n";
    assert IsSpecial(p[3]) && IsAsciiLetterOrDigit(p[0]);
    ValidateCharacterwise(p);
  }

  /** The rule as documented: the alphabet must cover the whole text
      (Python's `\Z`, or `re.fullmatch`). It accepts exactly the 8 to 10
      character strings over the alphabet with a special character and a
      letter or digit. */
  function ValidatePasswordStrict(password: string): (ok: bool)
    ensures ok <==>
      && 8 <= |password| <= 10
      && HasSpecial(password)
      && HasLetterOrDigit(password)
      && forall i | 0 <= i < |password| :: IsAllowed(password[i])
  {
    if |password| < 8 || |password| > 10 then false
    else if AllowedRun(password) != |password| then false
    else if !HasSpecial(password) then false
    else if !HasLetterOrDigit(password) then false
    else true
  }

  /** The two rules differ only on passwords ending in a newline. */
  lemma StrictDiffersOnlyOnFinalNewline(password: string)
    ensures ValidatePasswordStrict(password) <==>
      ValidatePasswordComplexity(password) && (password == [] || password[|password| - 1] != '\n')
  {
    ValidateCharacterwise(password);
  }
}
