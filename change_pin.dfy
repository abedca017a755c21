/** ChangePinActivity: a new PIN is asked for, then asked for again; the
    parent PIN in the "settings" preferences is written only when the two
    agree. Each answer is what a PIN dialog delivered. The activity's `step`
    field is never updated, so the prompt that is showing is what the model
    tracks instead. */
module ChangePin {
  import opened Common

  const PinLength: nat := 4
  const EnterNewPin: string := "Enter new PIN"
  const ConfirmNewPin: string := "Confirm new PIN"
  const ShortPinError: string := "PIN must be 4 digits"
  const MismatchError: string := "PINs do not match"

  /** Which of the two dialogs is waiting for an answer. */
  datatype Prompt = NewPinPrompt | ConfirmPinPrompt

  /** The activity's state and the "parent_pin" entry. */
  datatype Screen = Screen(newPin: string, promptText: string, errorText: string, showing: Prompt,
                           parentPin: Option<string>, finished: bool)

  /** `onCreate`: the first dialog is shown. */
  function Start(parentPin: Option<string>): Screen {
    Screen([], EnterNewPin, [], NewPinPrompt, parentPin, false)
  }

  /** The callback of whichever dialog is showing, with the PIN it delivered. */
  function Answer(s: Screen, pin: string): (r: Screen)
    ensures r.parentPin != s.parentPin ==> s.showing == ConfirmPinPrompt && pin == s.newPin
    ensures r.finished <==> s.finished || (s.showing == ConfirmPinPrompt && pin == s.newPin)
    ensures s.showing == NewPinPrompt ==> r.parentPin == s.parentPin
  {
    match s.showing
    case NewPinPrompt =>
      if |pin| == PinLength then
        s.(newPin := pin, promptText := ConfirmNewPin, showing := ConfirmPinPrompt)
      else
        s.(errorText := ShortPinError)
    case ConfirmPinPrompt =>
      if pin == s.newPin then
        s.(parentPin := Some(s.newPin), finished := true)
      else
        s.(errorText := MismatchError, promptText := EnterNewPin, showing := NewPinPrompt)
  }

  /** What the steps keep: a PIN waiting for confirmation has four
      characters, and the stored PIN is the initial one until the activity
      finishes, when it is the confirmed new PIN. */
  ghost predicate Inv(s: Screen, initial: Option<string>) {
    (s.showing == ConfirmPinPrompt ==> |s.newPin| == PinLength) &&
    (!s.finished ==> s.parentPin == initial) &&
    (s.finished ==> s.parentPin == Some(s.newPin) && s.showing == ConfirmPinPrompt)
  }

  lemma AnswerKeepsInv(s: Screen, initial: Option<string>, pin: string)
    requires Inv(s, initial) && !s.finished
    ensures Inv(Answer(s, pin), initial)
  {
  }

  /** The answers given until the activity finishes; later ones are never asked for. */
  function Run(s: Screen, pins: seq<string>): Screen
    decreases |pins|
  {
    if pins == [] || s.finished then s else Run(Answer(s, pins[0]), pins[1..])
  }

  /** The activity finishes only after two consecutive answers agree on a
      four-character PIN, and that PIN is what is stored; until then the
      stored PIN is untouched. */
  lemma {:induction false} RunWritesConfirmedPin(s: Screen, initial: Option<string>, pins: seq<string>)
    requires Inv(s, initial) && !s.finished
    ensures var r := Run(s, pins);
      Inv(r, initial) &&
      (r.finished ==>
        (|r.newPin| == PinLength &&
         ((s.showing == ConfirmPinPrompt && pins[0] == s.newPin == r.newPin) ||
          (exists i :: 0 <= i < |pins| - 1 && pins[i] == pins[i + 1] == r.newPin))))
    decreases |pins|
  {
    if pins != [] {
      var next := Answer(s, pins[0]);
      AnswerKeepsInv(s, initial, pins[0]);
      if !next.finished {
        RunWritesConfirmedPin(next, initial, pins[1..]);
        var r := Run(s, pins);
        assert r == Run(next, pins[1..]);
        if r.finished {
          if next.showing == ConfirmPinPrompt && pins[1..][0] == next.newPin == r.newPin {
            if s.showing == NewPinPrompt {
              assert pins[0] == next.newPin;
              assert pins[0] == pins[1] == r.newPin;
            } else {
              assert false;
            }
          } else {
            var i :| 0 <= i < |pins[1..]| - 1 && pins[1..][i] == pins[1..][i + 1] == r.newPin;
            assert pins[i + 1] == pins[i + 2] == r.newPin;
          }
        }
      }
    }
  }

  /** Answering the same four-character PIN twice from the start stores it;
      two different answers store nothing and return to the first prompt
      with the mismatch error. */
  lemma TwoAnswers(initial: Option<string>, p: string, q: string)
    requires |p| == PinLength
    ensures var r := Run(Start(initial), [p, q]);
      (p == q ==> r.finished && r.parentPin == Some(p)) &&
      (p != q ==> !r.finished && r.parentPin == initial && r.showing == NewPinPrompt &&
                  r.errorText == MismatchError && r.promptText == EnterNewPin)
  {
    var s1 := Answer(Start(initial), p);
    assert s1.showing == ConfirmPinPrompt && s1.newPin == p && !s1.finished;
    assert [p, q][1..] == [q];
    assert Run(Start(initial), [p, q]) == Run(s1, [q]);
    assert [q][1..] == [];
    assert Run(s1, [q]) == Run(Answer(s1, q), []) == Answer(s1, q);
  }

  /** The activity with the state its callbacks update. */
  class ChangePinActivity {
    var newPin: string
    var promptText: string
    var errorText: string
    var showing: Prompt
    /** "settings"/"parent_pin". */
    var parentPin: Option<string>
    var finished: bool

    function Snapshot(): Screen
      reads this
    {
      Screen(newPin, promptText, errorText, showing, parentPin, finished)
    }

    /** `onCreate` followed by `showNewPinPrompt`. */
    constructor (stored: Option<string>)
      ensures Snapshot() == Start(stored)
    {
      newPin := [];
      promptText := EnterNewPin;
      errorText := [];
      showing := NewPinPrompt;
      parentPin := stored;
      finished := false;
    }

    /** The callback of `showNewPinPrompt`. */
    method OnNewPin(pin: string)
      requires showing == NewPinPrompt && !finished
      modifies this
      ensures Snapshot() == Answer(old(Snapshot()), pin)
    {
      if |pin| == PinLength {
        newPin := pin;
        promptText := ConfirmNewPin;
        showing := ConfirmPinPrompt;
      } else {
        errorText := ShortPinError;
        showing := NewPinPrompt;
      }
    }

    /** The callback of `showConfirmPinPrompt`. */
    method OnConfirmPin(pin: string)
      requires showing == ConfirmPinPrompt && !finished
      modifies this
      ensures Snapshot() == Answer(old(Snapshot()), pin)
    {
      if pin == newPin {
        parentPin := Some(newPin);
        finished := true;
      } else {
        errorText := MismatchError;
        promptText := EnterNewPin;
        showing := NewPinPrompt;
      }
    }
  }
}
