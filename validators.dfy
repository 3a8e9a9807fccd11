/**
 * The input validators of the sign-up and doctor forms, and the password
 * check of the login screen. `hash_password` is SHA-256 in the
 * application; here it is whatever function the caller passes in.
 */
module Validators {
  import opened Text

  /** The symbols `is_strong_password` accepts (the last one is a backslash). */
  const PasswordSymbols := "!@#$%^&*()-_=+[]{};:,<.>/?\\"

  /** At least one uppercase letter, one digit and one listed symbol. */
  predicate IsStrongPassword(p: string) {
    (exists i :: 0 <= i < |p| && IsUpper(p[i]))
    && (exists i :: 0 <= i < |p| && IsDigit(p[i]))
    && (exists i :: 0 <= i < |p| && p[i] in PasswordSymbols)
  }

  /** `"@" in email and "." in email`. */
  predicate IsValidEmail(email: string) {
    '@' in email && '.' in email
  }

  /** The key-stroke check of the contact field: up to eleven digits, or empty. */
  predicate ValidateContact(p: string) {
    (p != [] && AllDigits(p) && |p| <= 11) || p == []
  }

  /** The key-stroke check of the fee and experience fields: digits only, or empty. */
  predicate IsNumeric(v: string) {
    (v != [] && AllDigits(v)) || v == []
  }

  /** `stored_hash == hash_password(entered_password)`. */
  predicate CheckPassword(storedHash: string, entered: string, hash: string -> string) {
    storedHash == hash(entered)
  }

  /** No listed symbol is an uppercase letter or a digit. */
  lemma SymbolsAreNotLettersOrDigits(c: char)
    requires c in PasswordSymbols
    ensures !IsUpper(c) && !IsDigit(c)
  {
    var i :| 0 <= i < |PasswordSymbols| && PasswordSymbols[i] == c;
  }

  /**
   * The three character classes are disjoint, so a strong password has at
   * least three characters; adding characters on either side keeps it strong.
   */
  lemma StrongPasswordShape(p: string, q: string)
    requires IsStrongPassword(p)
    ensures |p| >= 3
    ensures IsStrongPassword(p + q) && IsStrongPassword(q + p)
  {
    var u :| 0 <= u < |p| && IsUpper(p[u]);
    var d :| 0 <= d < |p| && IsDigit(p[d]);
    var s :| 0 <= s < |p| && p[s] in PasswordSymbols;
    SymbolsAreNotLettersOrDigits(p[s]);
    assert u != d && d != s && u != s;
    assert (p + q)[u] == p[u] && (p + q)[d] == p[d] && (p + q)[s] == p[s];
    assert (q + p)[|q| + u] == p[u] && (q + p)[|q| + d] == p[d] && (q + p)[|q| + s] == p[s];
  }

  /**
   * Examples: "Abc123!" is strong, and taking out its uppercase letter, its
   * digits or its symbol makes it weak, so each class is needed.
   */
  lemma StrongPasswordExamples()
    ensures IsStrongPassword("Abc123!")
    ensures !IsStrongPassword("bc123!")
    ensures !IsStrongPassword("Abc!")
    ensures !IsStrongPassword("Abc123")
  {
    assert IsUpper("Abc123!"[0]) && IsDigit("Abc123!"[3]);
    assert "Abc123!"[6] == PasswordSymbols[0];
    forall i | 0 <= i < |"bc123!"|
      ensures !IsUpper("bc123!"[i])
    {
    }
    forall i | 0 <= i < |"Abc!"|
      ensures !IsDigit("Abc!"[i])
    {
    }
    forall i | 0 <= i < |"Abc123"|
      ensures "Abc123"[i] !in PasswordSymbols
    {
      var c := "Abc123"[i];
      assert 'a' <= c <= 'z' || 'A' <= c <= 'Z' || '0' <= c <= '9';
      if c in PasswordSymbols {
        SymbolsAreNotLettersOrDigits(c);
        assert false;
      }
    }
  }

  /**
   * The e-mail check only looks for the two characters: any string with
   * both passes, even one with nothing around them.
   */
  lemma ValidEmailIsLoose(email: string)
    ensures IsValidEmail(email) ==> |email| >= 2
    ensures IsValidEmail("@.") && IsValidEmail(".@") && !IsValidEmail("user@example")
  {
    if IsValidEmail(email) {
      var i :| 0 <= i < |email| && email[i] == '@';
      var j :| 0 <= j < |email| && email[j] == '.';
      assert i != j;
    }
    assert "@."[0] == '@' && "@."[1] == '.';
    assert ".@"[1] == '@' && ".@"[0] == '.';
  }

  /**
   * A key-stroke validator that accepted a value also accepted every prefix
   * of it, so the whole value can be typed one character at a time; an
   * accepted contact number is numeric.
   */
  lemma KeystrokeValidatorsPrefixClosed(p: string, k: nat)
    requires k <= |p|
    ensures ValidateContact(p) ==> ValidateContact(p[..k]) && IsNumeric(p)
    ensures IsNumeric(p) ==> IsNumeric(p[..k])
  {
  }

  /** With a one-to-one hash, the stored hash of a password accepts that password and no other. */
  lemma CheckPasswordMeans(password: string, entered: string, hash: string -> string)
    ensures (forall x, y :: hash(x) == hash(y) ==> x == y) ==>
              (CheckPassword(hash(password), entered, hash) <==> entered == password)
  {
  }
}
