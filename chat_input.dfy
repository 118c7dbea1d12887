/**
 * The message box of the chat page: the text typed so far, capped at thirty
 * characters, and the submit button that is held disabled for a moment
 * after each send. `onSendMessage` is the caller's; a send is returned as
 * the message handed to it.
 */
module ChatInput {
  import opened Wrappers
  import opened JsText

  const MaxLength: nat := 30

  /** The guard of `handleSubmit`: some visible character, at most thirty
      characters, and a logged-in user. */
  function CanSend(message: string, isLoggedIn: bool): (b: bool)
    ensures b <==> isLoggedIn && |message| <= MaxLength && exists i :: 0 <= i < |message| && !IsSpace(message[i])
  {
    Trim(message) != "" && |message| <= MaxLength && isLoggedIn
  }

  class ChatInput {
    var message: string
    var isButtonDisabled: bool

    /** Both input paths keep the text within the cap. */
    ghost predicate Valid()
      reads this
    {
      |message| <= MaxLength
    }

    constructor ()
      ensures Valid() && message == "" && !isButtonDisabled
    {
      message := "";
      isButtonDisabled := false;
    }

    /** The `disabled` attribute of the submit button. */
    predicate ButtonDisabled(isLoggedIn: bool)
      reads this
    {
      isButtonDisabled || !isLoggedIn
    }

    /** `handleChange`: an input longer than the cap is ignored, any other replaces the text. */
    method HandleChange(input: string)
      modifies this`message
      ensures old(Valid()) ==> Valid()
      ensures message == if |input| <= MaxLength then input else old(message)
    {
      if |input| <= MaxLength {
        message := input;
      }
    }

    /** `handleSubmit`: a sendable message is handed to `onSendMessage`, the
        box is cleared and the button disabled; otherwise nothing changes. */
    method HandleSubmit(isLoggedIn: bool) returns (sent: Option<string>)
      modifies this`message, this`isButtonDisabled
      ensures sent.Some? <==> CanSend(old(message), isLoggedIn)
      ensures sent.Some? ==> 0 < |sent.value| <= MaxLength
      ensures sent.Some? ==> sent.value == old(message) && message == "" && isButtonDisabled
      ensures sent.Some? ==> ButtonDisabled(isLoggedIn)
      ensures sent.None? ==> message == old(message) && isButtonDisabled == old(isButtonDisabled)
    {
      if Trim(message) != "" && |message| <= MaxLength && isLoggedIn {
        sent := Some(message);
        message := "";
        isButtonDisabled := true;
      } else {
        sent := None;
      }
    }
  }
}
