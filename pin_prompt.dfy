/** PinPromptDialog: a keypad of ten digits, backspace and enter over a
    buffer of at most four characters, a row of four dots showing how many
    are typed, and an error line. Enter with four characters dismisses the
    dialog and hands the buffer to the caller's callback, which is recorded
    here as the delivered PIN. */
module PinPrompt {
  import opened Common

  const MaxLength: nat := 4
  const BackspaceLabel: string := "\U{232B}"
  const EnterLabel: string := "\U{23CE}"
  const ShortPinError: string := "PIN must be 4 digits"
  const FilledDot: string := "\U{25CF}"
  const EmptyDot: string := "\U{25CB}"

  /** The twelve key keys, row by row. */
  const Buttons: seq<string> := ["1", "2", "3", "4", "5", "6", "7", "8", "9", BackspaceLabel, "0", EnterLabel]

  predicate IsDigitLabel(key: string) {
    |key| == 1 && '0' <= key[0] <= '9'
  }

  /** Every key other than backspace and enter is one digit. */
  lemma ButtonLabels(key: string)
    requires key in Buttons
    ensures key != BackspaceLabel && key != EnterLabel ==> IsDigitLabel(key)
    ensures BackspaceLabel != EnterLabel && !IsDigitLabel(BackspaceLabel) && !IsDigitLabel(EnterLabel)
  {
  }

  /** A buffer the keypad can hold: at most four digits. */
  predicate ValidInput(input: string) {
    |input| <= MaxLength && forall i :: 0 <= i < |input| ==> '0' <= input[i] <= '9'
  }

  /** The buffer after a key: backspace drops the last character when there
      is one, a digit is appended while fewer than four are typed, and enter
      leaves the buffer as it is. */
  function NextInput(input: string, key: string): (r: string)
    ensures key == BackspaceLabel ==> r == if input == [] then [] else input[..|input| - 1]
    ensures key == EnterLabel ==> r == input
    ensures key != BackspaceLabel && key != EnterLabel ==>
      r == if |input| < MaxLength then input + key else input
  {
    if key == BackspaceLabel then
      if |input| > 0 then input[..|input| - 1] else input
    else if key == EnterLabel then input
    else if |input| < MaxLength then input + key
    else input
  }

  /** Every key keeps the buffer at no more than four digits. */
  lemma NextInputValid(input: string, key: string)
    requires ValidInput(input) && key in Buttons
    ensures ValidInput(NextInput(input, key))
  {
    ButtonLabels(key);
  }

  /** A digit typed while room is left is undone by backspace. */
  lemma BackspaceUndoesDigit(input: string, key: string)
    requires |input| < MaxLength && IsDigitLabel(key)
    ensures NextInput(NextInput(input, key), BackspaceLabel) == input
  {
    var typed := input + key;
    assert typed[..|typed| - 1] == input;
  }

  /** The buffer after a run of keys. */
  function Typed(input: string, keys: seq<string>): string
    decreases |keys|
  {
    if keys == [] then input
    else Typed(NextInput(input, keys[0]), keys[1..])
  }

  /** The keys that type `pin`, one digit each. */
  function KeysFor(pin: string): (r: seq<string>)
    ensures |r| == |pin|
  {
    if pin == [] then [] else [[pin[0]]] + KeysFor(pin[1..])
  }

  /** Every PIN of at most four digits can be typed from any shorter-or-equal
      buffer it extends, and in particular from the empty one. */
  lemma {:induction false} TypingPin(prefix: string, pin: string)
    requires |prefix| + |pin| <= MaxLength
    requires forall i :: 0 <= i < |pin| ==> '0' <= pin[i] <= '9'
    ensures Typed(prefix, KeysFor(pin)) == prefix + pin
    decreases |pin|
  {
    if pin == [] {
      assert prefix + pin == prefix;
    } else {
      var key := [pin[0]];
      assert key != BackspaceLabel && key != EnterLabel;
      assert NextInput(prefix, key) == prefix + key;
      TypingPin(prefix + key, pin[1..]);
      assert prefix + key + pin[1..] == prefix + pin;
    }
  }

  /** The dialog state the keys act on. */
  class PinPromptDialog {
    const promptText: string
    var input: string
    var errorText: string
    /** The texts of the four dots as last drawn. */
    var dots: seq<string>
    var dismissed: bool
    /** The argument of the `onPinEntered` call, once made. */
    var delivered: Option<string>

    ghost predicate Valid()
      reads this
    {
      ValidInput(input) && (delivered.Some? ==> dismissed && |delivered.value| == MaxLength) &&
      (dismissed ==> delivered.Some?)
    }

    /** `show`: an empty buffer, no error, four empty dots. */
    constructor (promptText: string)
      ensures Valid()
      ensures this.promptText == promptText && input == [] && errorText == []
      ensures dots == [EmptyDot, EmptyDot, EmptyDot, EmptyDot]
      ensures !dismissed && delivered.None?
    {
      this.promptText := promptText;
      input := [];
      errorText := [];
      dismissed := false;
      delivered := None;
      new;
      dots := RenderDots(0);
    }

    /** A key press on the open dialog. The error line is cleared first;
        enter on a short buffer shows the error and returns before the dots
        are redrawn; enter on a full buffer dismisses the dialog and then
        delivers the buffer. */
    method Press(key: string)
      requires Valid() && !dismissed && key in Buttons
      modifies this`input, this`errorText, this`dots, this`dismissed, this`delivered
      ensures Valid()
      ensures input == NextInput(old(input), key)
      ensures var short := key == EnterLabel && |old(input)| < MaxLength;
        errorText == (if short then ShortPinError else []) &&
        dots == (if short then old(dots) else Dots(|input|))
      ensures dismissed == (key == EnterLabel && |old(input)| == MaxLength)
      ensures delivered == if dismissed then Some(old(input)) else None
    {
      errorText := [];
      NextInputValid(input, key);
      if key == BackspaceLabel {
        if |input| > 0 {
          input := input[..|input| - 1];
        }
      } else if key == EnterLabel {
        if |input| < MaxLength {
          errorText := ShortPinError;
          return;
        }
        dismissed := true;
        delivered := Some(input);
      } else {
        if |input| < MaxLength {
          input := input + key;
        }
      }
      dots := RenderDots(|input|);
    }
  }

  /** Dot i is filled exactly when fewer than `typed` positions precede it. */
  function Dots(typed: nat): seq<string> {
    seq(MaxLength, i => if i < typed then FilledDot else EmptyDot)
  }

  /** `updatePinDots`: the four dots drawn one by one. */
  method RenderDots(typed: nat) returns (dots: seq<string>)
    ensures dots == Dots(typed)
  {
    dots := [];
    for i := 0 to MaxLength
      invariant |dots| == i
      invariant forall j :: 0 <= j < i ==> dots[j] == if j < typed then FilledDot else EmptyDot
    {
      dots := dots + [if i < typed then FilledDot else EmptyDot];
    }
  }

  /** The number of filled dots is the buffer length, capped at four. */
  lemma FilledCount(typed: nat, i: nat)
    requires i < MaxLength
    ensures (Dots(typed)[i] == FilledDot) <==> i < typed
  {
  }
}
