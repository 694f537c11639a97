/** The password validator: only the length of the password matters. */
module PasswordValidator {
  import opened Wrappers

  const MinLength: nat := 6
  const MaxLength: nat := 15

  /** `validate`: null and empty passwords are rejected, otherwise the length must be 6 to 15. */
  predicate Validate(password: Option<string>) {
    if password.None? || |password.value| == 0 then false
    else MinLength <= |password.value| && |password.value| <= MaxLength
  }

  /** Null and empty passwords are rejected. */
  lemma NullOrEmptyRejected()
    ensures !Validate(None) && !Validate(Some(""))
  {
  }

  /** A password is accepted exactly when its length lies in [6, 15]. */
  lemma AcceptedLengths(password: string)
    ensures Validate(Some(password)) <==> 6 <= |password| <= 15
  {
  }

  /** Two passwords of the same length are treated alike, whatever their characters. */
  lemma OnlyLengthMatters(a: string, b: string)
    requires |a| == |b|
    ensures Validate(Some(a)) == Validate(Some(b))
  {
  }

  /** The boundaries: lengths 5 and 16 are rejected, 6 and 15 accepted. */
  lemma BoundaryLengths()
    ensures !Validate(Some("12345")) && Validate(Some("123456"))
    ensures Validate(Some("123456789012345")) && !Validate(Some("1234567890123456"))
  {
  }
}
