/**
 * The review form's character counters (static/js/review-form.js): the
 * title and body inputs each have a counter element showing "len / max",
 * marked 'warning' near the limit and 'error' at it; input longer than the
 * limit is cut back, and keys that would type at the limit are blocked.
 * Both fields run the same code with their own limit and set of control
 * keys, so one class models a field together with its counter.
 */
module ReviewForm {
  import opened Wrappers
  import opened Text

  const TitleDefaultMax: int := 50
  const BodyDefaultMax: int := 1000

  /** The keys the title's keydown handler lets through at the limit. */
  const TitleControlKeys: set<string> := {"Backspace", "Delete", "ArrowLeft", "ArrowRight", "Tab"}
  /** The body's set: the title's plus the vertical arrows. */
  const BodyControlKeys: set<string> := {"Backspace", "Delete", "ArrowLeft", "ArrowRight", "ArrowUp", "ArrowDown", "Tab"}

  // ---------------------------------------------------------------------
  // parseInt(attribute) || default
  // ---------------------------------------------------------------------

  /** parseInt(el.getAttribute('data-max-length')) || default: NaN and 0 both fall back. */
  function MaxLengthOf(attr: Option<string>, default: int): (m: int)
    ensures attr.None? ==> m == default
    ensures m != default ==> attr.Some? && JsParseInt(attr.value) == Some(m) && m != 0
    ensures attr.Some? && JsParseInt(attr.value).Some? && JsParseInt(attr.value).value != 0 ==>
      m == JsParseInt(attr.value).value
    ensures attr.Some? && (JsParseInt(attr.value).None? || JsParseInt(attr.value) == Some(0)) ==> m == default
  {
    if attr.None? then default
    else match JsParseInt(attr.value)
      case None => default
      case Some(n) => if n == 0 then default else n
  }

  /**
   * A limit written with String(n) is read back as n, unless it is 0,
   * which falls back to the default like a missing attribute does.
   */
  lemma MaxLengthOfSpec(n: int, default: int)
    ensures MaxLengthOf(Some(IntToString(n)), default) == (if n == 0 then default else n)
    ensures MaxLengthOf(None, default) == default
  {
    JsParseIntOfIntToString(n);
  }

  /** Trailing text after the digits is ignored, and text without digits gives the default. */
  lemma MaxLengthOfText(default: int)
    ensures MaxLengthOf(Some(" 50px"), default) == 50
    ensures MaxLengthOf(Some("none"), default) == default
  {
    var t := " 50px";
    assert TrimStart(t) == TrimStart(t[1..]) == t[1..];
    assert LeadingDigits(t[1..][2..]) == [];
    assert LeadingDigits(t[1..][1..]) == "0";
    assert LeadingDigits(t[1..]) == "50";
    assert DigitsValue("50") == 50 by {
      assert "50"[..1] == "5";
      assert DigitsValue("5") == 5 by { assert "5"[..0] == ""; }
    }
    assert TrimStart("none") == "none";
  }

  // ---------------------------------------------------------------------
  // The update handler as a function of the field's state
  // ---------------------------------------------------------------------

  /** What the handler reads and writes: the input's value, the counter's text and class list. */
  datatype CounterView = CounterView(value: string, text: string, classes: set<string>)

  /** The input's value after the handler: cut to `max` characters when longer (substring clamps a negative end to 0). */
  function Truncated(v: string, max: int): string {
    if |v| > max then v[..if max < 0 then 0 else max] else v
  }

  /** The length the counter shows: `max` after a cut, else the value's length. */
  function ShownLength(v: string, max: int): int {
    if |v| > max then max else |v|
  }

  /** 'error' at or over the limit, 'warning' from nine tenths of it, else neither. */
  function LevelClasses(len: int, max: int): set<string> {
    if len >= max then {"error"} else if 10 * len >= 9 * max then {"warning"} else {}
  }

  /** updateTitleCounter / updateBodyCounter on a field with limit `max`. */
  function Updated(s: CounterView, max: int): CounterView {
    var len := ShownLength(s.value, max);
    CounterView(Truncated(s.value, max), IntToString(len) + " / " + IntToString(max),
                (s.classes - {"warning", "error"}) + LevelClasses(len, max))
  }

  /**
   * With a non-negative limit the new value is the old one's prefix of
   * length min(len, max), and the counter shows that length.
   */
  lemma TruncatedSpec(v: string, max: int)
    requires max >= 0
    ensures var t := Truncated(v, max);
      && |t| <= max && t == v[..|t|]
      && |t| == (if |v| <= max then |v| else max)
      && ShownLength(v, max) == |t|
  {
  }

  /**
   * The counter is marked 'error' exactly at or over the limit, 'warning'
   * exactly from nine tenths of it up to the limit, never both; the other
   * classes on the counter are kept.
   */
  lemma UpdatedClassesSpec(s: CounterView, max: int)
    ensures var u := Updated(s, max); var len := ShownLength(s.value, max);
      && ("error" in u.classes <==> len >= max)
      && ("warning" in u.classes <==> len < max && 10 * len >= 9 * max)
      && !("error" in u.classes && "warning" in u.classes)
      && (forall c :: c != "warning" && c != "error" ==> (c in u.classes <==> c in s.classes))
  {
  }

  /** Running the handler a second time changes nothing. */
  lemma UpdatedIdempotent(s: CounterView, max: int)
    ensures Updated(Updated(s, max), max) == Updated(s, max)
  {
    var u := Updated(s, max);
    if max >= 0 {
      TruncatedSpec(s.value, max);
      TruncatedSpec(u.value, max);
      assert ShownLength(u.value, max) == ShownLength(s.value, max);
    } else {
      assert u.value == [];
      assert ShownLength(u.value, max) == max;
    }
    assert Truncated(u.value, max) == u.value;
    assert (u.classes - {"warning", "error"}) == (s.classes - {"warning", "error"});
  }

  // ---------------------------------------------------------------------
  // The keydown handler
  // ---------------------------------------------------------------------

  /** The keydown handler calls preventDefault: the value is at the limit and the key is not a control key. */
  function KeyBlocked(valueLength: nat, max: int, controlKeys: set<string>, key: string, ctrlKey: bool, metaKey: bool): bool {
    valueLength >= max && !(key in controlKeys || ctrlKey || metaKey)
  }

  /**
   * Below the limit nothing is blocked; control keys and Ctrl/Meta chords
   * never are; at the limit ArrowUp is blocked in the title but not in the
   * body, whose control set adds exactly the vertical arrows.
   */
  lemma KeyBlockedSpec(valueLength: nat, max: int, controlKeys: set<string>, key: string, ctrlKey: bool, metaKey: bool)
    ensures valueLength < max ==> !KeyBlocked(valueLength, max, controlKeys, key, ctrlKey, metaKey)
    ensures key in controlKeys || ctrlKey || metaKey ==> !KeyBlocked(valueLength, max, controlKeys, key, ctrlKey, metaKey)
    ensures valueLength >= max && key !in controlKeys && !ctrlKey && !metaKey ==>
      KeyBlocked(valueLength, max, controlKeys, key, ctrlKey, metaKey)
    ensures BodyControlKeys == TitleControlKeys + {"ArrowUp", "ArrowDown"}
    ensures valueLength >= max ==>
      KeyBlocked(valueLength, max, TitleControlKeys, "ArrowUp", false, false)
      && !KeyBlocked(valueLength, max, BodyControlKeys, "ArrowUp", false, false)
  {
    assert "ArrowUp" !in TitleControlKeys by {
      assert "ArrowUp"[5] == 'U';
      assert "ArrowLeft"[5] == 'L' && "ArrowRight"[5] == 'R';
      assert "Backspace" != "ArrowUp" && "Delete" != "ArrowUp" && "Tab" != "ArrowUp";
    }
  }

  /** A field with its counter: the input's value and the counter's text and classes. */
  class CounterField {
    const maxLength: int
    const controlKeys: set<string>
    var value: string
    var counterText: string
    var classes: set<string>

    function View(): CounterView
      reads this
    {
      CounterView(value, counterText, classes)
    }

    /**
     * Set-up on DOMContentLoaded for a present input and counter: the limit
     * from data-max-length (or the default), then one update.
     */
    constructor (attr: Option<string>, defaultMax: int, keys: set<string>, initialValue: string, initialClasses: set<string>)
      ensures maxLength == MaxLengthOf(attr, defaultMax) && controlKeys == keys
      ensures View() == Updated(CounterView(initialValue, "", initialClasses), maxLength)
    {
      maxLength := MaxLengthOf(attr, defaultMax);
      controlKeys := keys;
      value := initialValue;
      counterText := "";
      classes := initialClasses;
      new;
      Update();
    }

    /** The input handler: cut the value back to the limit, then refresh the counter's text and classes. */
    method Update()
      modifies this`value, this`counterText, this`classes
      ensures View() == Updated(old(View()), maxLength)
    {
      var currentLength := |value|;
      if currentLength > maxLength {
        value := value[..if maxLength < 0 then 0 else maxLength];
        currentLength := maxLength;
      }
      counterText := IntToString(currentLength) + " / " + IntToString(maxLength);
      classes := classes - {"warning", "error"};
      if currentLength >= maxLength {
        classes := classes + {"error"};
      } else if 10 * currentLength >= 9 * maxLength {
        classes := classes + {"warning"};
      }
    }

    /** The keydown handler: whether it prevents the key's default action. */
    method OnKeydown(key: string, ctrlKey: bool, metaKey: bool) returns (prevented: bool)
      ensures prevented == KeyBlocked(|value|, maxLength, controlKeys, key, ctrlKey, metaKey)
    {
      var isControlKey := key in controlKeys || ctrlKey || metaKey;
      prevented := |value| >= maxLength && !isControlKey;
    }
  }
}
