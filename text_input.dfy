/** What the text-entry helper hands back. Nothing is parsed here: each entry
    carries the edited text together with the outcome of every conversion the
    menus apply to it. */
module TextInput {
  import opened PyFormat
  import opened Keys

  /** get_text_input's result: the edited text with surrounding whitespace
      stripped; `asInt` is Python's int(text), `asNumber` the result of
      text_input_to_int(text), `asReal` that of float(text) or
      text_input_to_float(text); None where the conversion raises or gives None. */
  datatype Entry = Entry(text: string, asInt: Option<int>, asNumber: Option<int>, asReal: Option<real>)

  /** Entry.asInt holds ints in the half-open range [lo, hi). */
  predicate IntIn(e: Entry, lo: int, hi: int)
  {
    e.asInt.Some? && lo <= e.asInt.value < hi
  }

  /** Entry.asNumber holds ints in the half-open range [lo, hi). */
  predicate NumberIn(e: Entry, lo: int, hi: int)
  {
    e.asNumber.Some? && lo <= e.asNumber.value < hi
  }

  /** One keystroke read by a menu loop, with what the dialog it opens would
      answer: the text prompt's entry and the selection window's choice (None
      when the window is left with ESC). */
  datatype Event = Event(key: Key, entry: Entry, selection: Option<string>)
}
