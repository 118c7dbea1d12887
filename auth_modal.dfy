/**
 * The login / registration dialog of the web client: its form fields, the
 * error messages `validateForm` computes for them, and the submit guard.
 * The `type` prop is `kind`; only `"register"` adds the registration rules.
 */
module AuthModal {
  import opened JsText

  datatype Field = Email | Username | Nickname | Password | ConfirmPassword

  /** The message shown under a field (English glosses of the Korean texts). */
  function ErrorText(f: Field): string
  {
    match f
    case Email => EmailMessage
    case Nickname => NicknameMessage
    case ConfirmPassword => ConfirmPasswordMessage
    case Username => UsernameMessage
    case Password => PasswordMessage
  }

  const EmailMessage := "Please enter a valid email address."
  const NicknameMessage := "Nickname must be at least 2 characters."
  const ConfirmPasswordMessage := "Passwords do not match."
  const UsernameMessage := "Username must be at least 4 characters."
  const PasswordMessage := "Password must be at least 8 characters."

  /** The `type` prop of the registration dialog. */
  const RegisterKind := "register"

  const MinUsername: nat := 4
  const MinPassword: nat := 8
  const MinNickname: nat := 2

  /** `s[i..j]` is non-empty and free of white space: a match of `\S+`. */
  predicate VisibleRun(s: string, i: int, j: int)
  {
    0 <= i < j <= |s| && forall k :: i <= k < j ==> !IsSpace(s[k])
  }

  /** `s[i..j]` matches `\S+@\S+\.\S+`, with the `@` at `a` and the `.` at `d`. */
  predicate MatchAt(s: string, i: int, a: int, d: int, j: int)
  {
    && VisibleRun(s, i, a) && a < |s| && s[a] == '@'
    && VisibleRun(s, a + 1, d) && d < |s| && s[d] == '.'
    && VisibleRun(s, d + 1, j)
  }

  /** `/\S+@\S+\.\S+/.test(s)`: the pattern is not anchored, so any substring may match. */
  ghost predicate EmailPattern(s: string)
  {
    exists i, a, d, j :: MatchAt(s, i, a, d, j)
  }

  /** The shortest match: one visible character before the `@`, one after the `.`. */
  predicate ShortMatch(s: string, a: int, d: int)
  {
    && 1 <= a < d < |s| - 1 && s[a] == '@' && s[d] == '.'
    && !IsSpace(s[a - 1]) && VisibleRun(s, a + 1, d) && !IsSpace(s[d + 1])
  }

  lemma MatchHasShortMatch(s: string, i: int, a: int, d: int, j: int)
    requires MatchAt(s, i, a, d, j)
    ensures ShortMatch(s, a, d)
  {
    assert i <= a - 1 < a;
    assert d + 1 < j;
  }

  /** The pattern test, looking only at the characters next to an `@` and a later `.`. */
  function HasEmailPattern(s: string): (b: bool)
    ensures b <==> EmailPattern(s)
  {
    var b := exists a, d | 0 <= a < |s| && 0 <= d < |s| :: ShortMatch(s, a, d);
    if b then
      var a, d :| 0 <= a < |s| && 0 <= d < |s| && ShortMatch(s, a, d);
      assert MatchAt(s, a - 1, a, d, d + 2);
      b
    else
      assert forall i, a, d, j | MatchAt(s, i, a, d, j) :: ShortMatch(s, a, d) by {
        forall i, a, d, j | MatchAt(s, i, a, d, j) ensures ShortMatch(s, a, d) {
          MatchHasShortMatch(s, i, a, d, j);
        }
      }
      b
  }

  /** Every recorded error carries its field's message. */
  predicate Labelled(errors: map<Field, string>)
  {
    forall f :: f in errors ==> errors[f] == ErrorText(f)
  }

  class AuthModal {
    const kind: string
    var email: string
    var username: string
    var nickname: string
    var password: string
    var confirmPassword: string
    var errors: map<Field, string>

    constructor (kind: string)
      ensures this.kind == kind && errors == map[]
      ensures email == username == nickname == password == confirmPassword == ""
    {
      this.kind := kind;
      email, username, nickname, password, confirmPassword := "", "", "", "", "";
      errors := map[];
    }

    /** The rules of `validateForm`: which fields carry an error, and with which text. */
    ghost predicate ErrorsMatchForm()
      reads this
    {
      && (Email in errors <==> kind == RegisterKind && !EmailPattern(email))
      && (Nickname in errors <==> kind == RegisterKind && |nickname| < MinNickname)
      && (ConfirmPassword in errors <==> kind == RegisterKind && password != confirmPassword)
      && (Username in errors <==> |username| < MinUsername)
      && (Password in errors <==> |password| < MinPassword)
      && Labelled(errors)
    }

    /** `validateForm`: set `errors` to the fields that break a rule; the form
        is valid iff there are none. */
    method ValidateForm() returns (valid: bool)
      modifies this`errors
      ensures ErrorsMatchForm()
      ensures valid <==> errors == map[]
    {
      var newErrors: map<Field, string> := map[];
      if kind == RegisterKind {
        var emailOk := HasEmailPattern(email);
        assert email == "" ==> !emailOk;
        if email == "" || !emailOk {
          newErrors := newErrors[Email := EmailMessage];
        }
        if nickname == "" || |nickname| < MinNickname {
          newErrors := newErrors[Nickname := NicknameMessage];
        }
        if password != confirmPassword {
          newErrors := newErrors[ConfirmPassword := ConfirmPasswordMessage];
        }
      }
      if username == "" || |username| < MinUsername {
        newErrors := newErrors[Username := UsernameMessage];
      }
      if password == "" || |password| < MinPassword {
        newErrors := newErrors[Password := PasswordMessage];
      }
      errors := newErrors;
      valid := newErrors == map[];
    }

    /** `handleSubmit`: `closed` says whether `onClose` was called, which
        happens exactly when the form is valid. */
    method HandleSubmit() returns (closed: bool)
      modifies this`errors
      ensures ErrorsMatchForm()
      ensures closed <==> errors == map[]
    {
      closed := ValidateForm();
    }
  }

  /** After validation the form is accepted iff every rule of its kind holds:
      username and password long enough, and for registration also a
      matching email, a nickname of two characters and the same password twice. */
  lemma {:induction false} AcceptedIffRulesHold(form: AuthModal)
    requires form.ErrorsMatchForm()
    ensures form.errors == map[] <==>
              && |form.username| >= MinUsername
              && |form.password| >= MinPassword
              && (form.kind == RegisterKind ==>
                    EmailPattern(form.email) && |form.nickname| >= MinNickname
                    && form.password == form.confirmPassword)
  {
    if form.errors != map[] {
      var f :| f in form.errors;
    }
  }
}
