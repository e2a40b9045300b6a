/**
 * Quantity feedback on the cart page (static/js/cart-update.js): each
 * cart row's update form remembers the quantity it was rendered with and
 * highlights the row while the typed quantity differs from it; submitting
 * locks the button and dims the row. Quantities are compared the way the
 * script compares them: parseInt results with !==, where NaN (None here)
 * differs from everything, itself included.
 */
module CartUpdate {
  import opened Wrappers
  import opened Text

  const WarningButton: string := "btn-warning"
  const PlainButton: string := "btn-outline-primary"
  const WarningRow: string := "table-warning"
  const SpinnerHtml: string := "<i class=\"fa-solid fa-spinner fa-spin\"></i>"

  /** currentQuantity !== originalQuantity over parseInt results. */
  function QuantityChanged(current: Option<int>, original: Option<int>): (r: bool)
    ensures current.Some? && original.Some? ==> (r <==> current.value != original.value)
    ensures current.None? || original.None? ==> r
  {
    current.None? || original.None? || current.value != original.value
  }

  /**
   * Typing back the rendered quantity clears the highlight, whatever
   * white space or trailing text surrounds it, unless the rendered value
   * had no number in it: then every input counts as a change.
   */
  lemma QuantityChangedSpec(n: int, original: string)
    ensures JsParseInt(original) == Some(n) ==> !QuantityChanged(JsParseInt(IntToString(n)), JsParseInt(original))
    ensures JsParseInt(original).None? ==> forall typed :: QuantityChanged(JsParseInt(typed), JsParseInt(original))
  {
    JsParseIntOfIntToString(n);
  }

  /** One update form with its button and the row it sits in. */
  class CartRowForm {
    /** parseInt of the quantity the row was rendered with, read once on DOMContentLoaded. */
    const originalQuantity: Option<int>
    var inputValue: string
    var buttonClasses: set<string>
    var rowClasses: set<string>
    var buttonDisabled: bool
    var buttonHtml: string
    var rowOpacity: Option<string>

    /** The highlight is on: warning button and row, no outline button. */
    predicate Highlighted()
      reads this
    {
      WarningButton in buttonClasses && PlainButton !in buttonClasses && WarningRow in rowClasses
    }

    /** The highlight is off: outline button, no warning on button or row. */
    predicate Plain()
      reads this
    {
      WarningButton !in buttonClasses && PlainButton in buttonClasses && WarningRow !in rowClasses
    }

    constructor (value: string, btnClasses: set<string>, trClasses: set<string>, html: string)
      ensures originalQuantity == JsParseInt(value) && inputValue == value
      ensures buttonClasses == btnClasses && rowClasses == trClasses
      ensures !buttonDisabled && buttonHtml == html && rowOpacity.None?
    {
      originalQuantity := JsParseInt(value);
      inputValue := value;
      buttonClasses := btnClasses;
      rowClasses := trClasses;
      buttonDisabled := false;
      buttonHtml := html;
      rowOpacity := None;
    }

    /**
     * The input handler after the visitor typed `typed`: highlighted
     * exactly when the typed quantity differs from the rendered one; the
     * other classes stay.
     */
    method OnInput(typed: string)
      modifies this`inputValue, this`buttonClasses, this`rowClasses
      ensures inputValue == typed
      ensures QuantityChanged(JsParseInt(typed), originalQuantity) ==> Highlighted()
      ensures !QuantityChanged(JsParseInt(typed), originalQuantity) ==> Plain()
      ensures forall c :: c != WarningButton && c != PlainButton ==> (c in buttonClasses <==> c in old(buttonClasses))
      ensures forall c :: c != WarningRow ==> (c in rowClasses <==> c in old(rowClasses))
    {
      inputValue := typed;
      var currentQuantity := JsParseInt(inputValue);
      if QuantityChanged(currentQuantity, originalQuantity) {
        buttonClasses := buttonClasses + {WarningButton};
        buttonClasses := buttonClasses - {PlainButton};
        rowClasses := rowClasses + {WarningRow};
      } else {
        buttonClasses := buttonClasses - {WarningButton};
        buttonClasses := buttonClasses + {PlainButton};
        rowClasses := rowClasses - {WarningRow};
      }
    }

    /** The submit handler: the button is disabled and shows a spinner, the row is dimmed. */
    method OnSubmit()
      modifies this`buttonDisabled, this`buttonHtml, this`rowOpacity
      ensures buttonDisabled && buttonHtml == SpinnerHtml && rowOpacity == Some("0.6")
    {
      buttonDisabled := true;
      buttonHtml := SpinnerHtml;
      rowOpacity := Some("0.6");
    }
  }
}
