/**
 * The admin's image-alt counter (static/js/admin/image-alt-counter.js):
 * the product form's image_alt input gets maxlength 150 and a counter
 * element after it showing "len/150", marked 'is-max' at the limit. A page
 * without that input is left alone, so the model starts from the input.
 */
module ImageAltCounter {
  import opened Wrappers
  import opened Text

  const AltLimit: nat := 150

  /** The counter element the script creates: its classes and text. */
  datatype Counter = Counter(classes: set<string>, text: string)

  /** The counter's text for a value of `len` characters. */
  function CounterText(len: nat): (t: string)
    ensures |t| > 4 && t[..|t| - 4] == NatToString(len) && t[|t| - 4..] == "/150"
  {
    NatToString(len) + "/150"
  }

  /** The counter text names the length it was made from. */
  lemma CounterTextInjective(a: nat, b: nat)
    ensures CounterText(a) == CounterText(b) ==> a == b
  {
    if CounterText(a) == CounterText(b) {
      assert NatToString(a) == NatToString(b);
      DigitsOfNat(a);
      DigitsOfNat(b);
    }
  }

  class AltInput {
    var value: string
    var maxLengthAttr: Option<string>
    var counter: Option<Counter>

    constructor (v: string, maxLength: Option<string>)
      ensures value == v && maxLengthAttr == maxLength && counter.None?
    {
      value := v;
      maxLengthAttr := maxLength;
      counter := None;
    }

    /** DOMContentLoaded: force maxlength to 150 and add a counter showing the current length. */
    method Setup()
      modifies this`maxLengthAttr, this`counter
      ensures maxLengthAttr == Some("150")
      ensures counter == Some(Counter({"char-counter"}, CounterText(|value|)))
    {
      maxLengthAttr := Some("150");
      var len := if value != "" then |value| else 0;
      counter := Some(Counter({"char-counter"}, CounterText(len)));
    }

    /** The input handler: refresh the text, and 'is-max' exactly at or over the limit. */
    method Update()
      requires counter.Some?
      modifies this`counter
      ensures counter.Some? && counter.value.text == CounterText(|value|)
      ensures "is-max" in counter.value.classes <==> |value| >= AltLimit
      ensures forall c :: c != "is-max" ==> (c in counter.value.classes <==> c in old(counter.value.classes))
    {
      var len := |value|;
      var classes := counter.value.classes;
      if len >= AltLimit {
        classes := classes + {"is-max"};
      } else {
        classes := classes - {"is-max"};
      }
      counter := Some(Counter(classes, CounterText(len)));
    }
  }
}
