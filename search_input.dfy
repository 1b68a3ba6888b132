/**
 * The search form (`SearchInput`): the text field's own state, the submit
 * handler that hands the trimmed username to the search, and the two
 * `disabled` flags. Whether a search is in flight is an input, `loading`.
 */
module SearchInput {
  import opened Wrappers
  import opened JsStrings

  class SearchForm {
    /** The field's text, kept as typed. */
    var username: string

    /** A fresh form starts empty. */
    constructor()
      ensures username == ""
    {
      username := "";
    }

    /** The field's `onChange`: the text is replaced by what the input now holds. */
    method OnChange(value: string)
      modifies this
      ensures username == value
    {
      username := value;
    }

    /**
     * The form's `onSubmit`. It searches, returning the username it passes
     * to `onSearch`, exactly when the field holds something other than
     * whitespace; what it passes is the text with its surrounding whitespace
     * removed, so neither end of it is whitespace.
     */
    method HandleSubmit() returns (searched: Option<string>)
      ensures searched.Some? <==> !AllWhitespace(username)
      ensures searched.Some? ==> searched.value == Trim(username)
      ensures searched.Some? ==> && searched.value != ""
                                 && !IsJsWhitespace(searched.value[0])
                                 && !IsJsWhitespace(searched.value[|searched.value| - 1])
    {
      TrimEmptyIff(username);
      TrimSpec(username);
      var trimmed := Trim(username);
      if trimmed != "" {
        searched := Some(trimmed);
      } else {
        searched := None;
      }
    }

    /** The text field's `disabled` flag. */
    function InputDisabled(loading: bool): bool {
      loading
    }

    /**
     * The submit button's `disabled` flag: it is off exactly when no search
     * is in flight and the field holds something other than whitespace, the
     * same condition under which `HandleSubmit` searches.
     */
    function SubmitDisabled(loading: bool): (r: bool)
      reads this
      ensures r <==> loading || AllWhitespace(username)
    {
      TrimEmptyIff(username);
      loading || Trim(username) == ""
    }
  }

  /** While a search is in flight both the field and the button are disabled; otherwise the field is not. */
  lemma LoadingLocksForm(form: SearchForm, loading: bool)
    ensures loading ==> form.InputDisabled(loading) && form.SubmitDisabled(loading)
    ensures !loading ==> !form.InputDisabled(loading)
  {
  }

  /** Submitting the already trimmed username searches for the same name again. */
  lemma ResubmitSameName(typed: string)
    requires !AllWhitespace(typed)
    ensures !AllWhitespace(Trim(typed))
    ensures Trim(Trim(typed)) == Trim(typed)
  {
    TrimEmptyIff(typed);
    TrimEmptyIff(Trim(typed));
    TrimIdempotent(typed);
  }
}
