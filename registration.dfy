/** The client-side checks the registration form runs before it contacts the
    account service, in the order the form runs them. */
module Registration {
  import opened Text
  import Config

  datatype Rejection = PasswordsDiffer | PasswordTooShort | InvalidUid | InvalidEmail

  datatype Verdict = Accepted | Rejected(why: Rejection)

  /** `handleRegister`'s validation: the uid and email fields are trimmed, the password
      fields are not, and the first failing check decides the message. The length
      check counts UTF-16 code units, as JavaScript's `length` does. */
  function CheckRegistration(password: string, confirmPassword: string,
                             uidField: string, emailField: string): (v: Verdict)
    ensures v == Accepted <==>
              && password == confirmPassword
              && Utf16Length(password) >= Config.PasswordMinLength
              && Config.ValidUid(Trim(uidField))
              && Config.ValidEmail(Trim(emailField))
    ensures v == Rejected(PasswordsDiffer) <==> password != confirmPassword
    ensures v == Rejected(PasswordTooShort) <==>
              password == confirmPassword && Utf16Length(password) < Config.PasswordMinLength
    ensures v == Rejected(InvalidUid) <==>
              && password == confirmPassword
              && Utf16Length(password) >= Config.PasswordMinLength
              && !Config.ValidUid(Trim(uidField))
    ensures v == Rejected(InvalidEmail) <==>
              && password == confirmPassword
              && Utf16Length(password) >= Config.PasswordMinLength
              && Config.ValidUid(Trim(uidField))
              && !Config.ValidEmail(Trim(emailField))
  {
    CheckTrimmed(password, confirmPassword, Trim(uidField), Trim(emailField))
  }

  /** The checks in form order, on the already trimmed uid and email. */
  function CheckTrimmed(password: string, confirmPassword: string, uid: string, email: string): Verdict {
    if password != confirmPassword then Rejected(PasswordsDiffer)
    else if Utf16Length(password) < 6 then Rejected(PasswordTooShort)
    else if !Config.ValidUid(uid) then Rejected(InvalidUid)
    else if !Config.ValidEmail(email) then Rejected(InvalidEmail)
    else Accepted
  }

  /** The form never checks the configured maximum: a long password is accepted. */
  lemma NoMaximumPasswordLength(password: string, uidField: string, emailField: string)
    requires Utf16Length(password) > Config.PasswordMaxLength
    requires Config.ValidUid(Trim(uidField)) && Config.ValidEmail(Trim(emailField))
    ensures CheckRegistration(password, password, uidField, emailField) == Accepted
  {
  }

  /** Surrounding whitespace in the uid field does not matter, as the field is trimmed. */
  lemma UidFieldIsTrimmed(password: string, confirmPassword: string, uidField: string, emailField: string)
    ensures CheckRegistration(password, confirmPassword, Trim(uidField), emailField)
         == CheckRegistration(password, confirmPassword, uidField, emailField)
  {
    TrimIdempotent(uidField);
  }
}
