/** The console panel's test for a G-code response that reports an error:
    Klipper's "!!" prefix, or "error" in any letter case at the start. */
module Console {
  import opened Common

  /** is_error_message. */
  function IsErrorMessage(message: string): bool
  {
    if |message| == 0 then false
    else if |message| >= 2 && message[0] == '!' && message[1] == '!' then true
    else if |message| >= 5 && LowerString(message[..5]) == "error" then true
    else false
  }

  /** "error" spelled in any mix of upper and lower case, letter by letter. */
  predicate StartsWithErrorAnyCase(m: string)
  {
    |m| >= 5 &&
    (m[0] == 'e' || m[0] == 'E') && (m[1] == 'r' || m[1] == 'R') && (m[2] == 'r' || m[2] == 'R') &&
    (m[3] == 'o' || m[3] == 'O') && (m[4] == 'r' || m[4] == 'R')
  }

  /** A character lowers to a given lower-case letter exactly when it is
      that letter or its upper-case form. */
  lemma LowersTo(c: char, l: char)
    requires IsLower(l)
    ensures ToLower(c) == l <==> c == l || c as int == l as int - 32
  {
  }

  /** Lowering five characters gives "error" exactly when they spell it in
      some mix of cases. */
  lemma LowerErrorIsAnyCase(m: string)
    requires |m| >= 5
    ensures LowerString(m[..5]) == "error" <==> StartsWithErrorAnyCase(m)
  {
    var w := LowerString(m[..5]);
    LowersTo(m[0], 'e');
    LowersTo(m[1], 'r');
    LowersTo(m[2], 'r');
    LowersTo(m[3], 'o');
    LowersTo(m[4], 'r');
    if StartsWithErrorAnyCase(m) {
      assert w == "error";
    }
    if w == "error" {
      assert w[0] == 'e' && w[1] == 'r' && w[2] == 'r' && w[3] == 'o' && w[4] == 'r';
    }
  }

  /** A message is an error exactly when it starts with "!!" or with
      "error" in any case; nothing later in the message matters. */
  lemma ErrorMessageCharacterised(message: string)
    ensures IsErrorMessage(message) <==>
      (|message| >= 2 && message[..2] == "!!") || StartsWithErrorAnyCase(message)
  {
    if |message| >= 5 {
      LowerErrorIsAnyCase(message);
    }
    if |message| >= 2 && message[..2] == "!!" {
      assert message[0] == '!' && message[1] == '!';
    }
  }

  /** Only the first five characters are looked at: two messages that agree
      on them are classified alike. */
  lemma OnlyPrefixMatters(a: string, b: string)
    requires |a| >= 5 && |b| >= 5 && a[..5] == b[..5]
    ensures IsErrorMessage(a) == IsErrorMessage(b)
  {
    ErrorMessageCharacterised(a);
    ErrorMessageCharacterised(b);
    assert a[..2] == a[..5][..2] && b[..2] == b[..5][..2];
    assert forall i :: 0 <= i < 5 ==> a[i] == a[..5][i] && b[i] == b[..5][i];
  }

  /** The empty message is not an error; a message shorter than five
      characters is one only with the "!!" prefix. */
  lemma ShortMessages(message: string)
    ensures IsErrorMessage("") == false
    ensures |message| < 5 ==> (IsErrorMessage(message) <==> |message| >= 2 && message[..2] == "!!")
  {
    ErrorMessageCharacterised(message);
  }
}
