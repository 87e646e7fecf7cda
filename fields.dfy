/** The per-field state of jQuery.labelify and its transitions, as values:
    showLabel, hideLabel, the focus and blur handlers, the check that
    removeValuesOnExit applies to each field, and what binding does to one
    field. */
module Fields {
  import opened Lookups

  /** One text input or textarea, with the data labelify attaches to it. */
  datatype Field = Field(
    attrs: Attrs,
    value: string,          // the displayed value
    hint: Option<string>,   // data("label"): the hint cached at bind time; Some once the handlers are bound
    hasLabel: bool,         // data("hasLabel"); false also stands for "never set"
    classes: set<string>)   // the element's CSS classes

  /** What every field the plugin touches satisfies: the flag is only set
      with a cached hint, a cached hint has no line feed, and no class name
      is empty. */
  predicate WellFormed(f: Field)
  {
    (f.hasLabel ==> f.hint.Some?) &&
    (f.hint.Some? ==> '\n' !in f.hint.value) &&
    "" !in f.classes
  }

  /** The flag is set only while the field displays its cached hint. */
  predicate Consistent(f: Field)
  {
    f.hasLabel ==> f.hint == Some(f.value)
  }

  /** The field displays its hint, flagged, with the hint class on. */
  predicate Showing(f: Field, cls: string)
  {
    f.hint.Some? && f.value == f.hint.value && f.hasLabel && (cls != "" ==> cls in f.classes)
  }

  /** The field is empty, not flagged, and without the hint class. */
  predicate Hidden(f: Field, cls: string)
  {
    f.value == "" && !f.hasLabel && cls !in f.classes
  }

  /** jQuery's addClass: an empty class name adds nothing. */
  function AddClass(cs: set<string>, c: string): set<string>
  {
    if c == "" then cs else cs + {c}
  }

  /** showLabel: add the class, set the flag, display the cached hint. */
  function Show(f: Field, cls: string): (g: Field)
    requires WellFormed(f) && f.hint.Some?
    ensures WellFormed(g) && Showing(g, cls) && Consistent(g)
    ensures g.attrs == f.attrs && g.hint == f.hint && g.classes - {cls} == f.classes - {cls}
  {
    f.(value := f.hint.value, hasLabel := true, classes := AddClass(f.classes, cls))
  }

  /** hideLabel: empty the value, remove the class, clear the flag. */
  function Hide(f: Field, cls: string): (g: Field)
    requires WellFormed(f)
    ensures WellFormed(g) && Hidden(g, cls) && Consistent(g)
    ensures g.attrs == f.attrs && g.hint == f.hint && g.classes - {cls} == f.classes - {cls}
  {
    f.(value := "", hasLabel := false, classes := f.classes - {cls})
  }

  /** The focus handler, which is also what removeValuesOnExit does to each
      field: hide the hint when the value equals the cached hint. The test
      compares values; it does not look at the flag. */
  function ClearIfHint(f: Field, cls: string): (g: Field)
    requires WellFormed(f)
    ensures WellFormed(g)
    ensures f.hint == Some(f.value) ==> Hidden(g, cls) && g.attrs == f.attrs && g.hint == f.hint && g.classes - {cls} == f.classes - {cls}
    ensures f.hint != Some(f.value) ==> g == f
    ensures Consistent(f) ==> Consistent(g)
  {
    if f.hint == Some(f.value) then Hide(f, cls) else f
  }

  /** The blur handler, which exists only on a field with a cached hint:
      show the hint when the value is empty. */
  function OnBlur(f: Field, cls: string): (g: Field)
    requires WellFormed(f)
    ensures WellFormed(g)
    ensures f.hint.Some? && f.value == "" ==> Showing(g, cls) && g.attrs == f.attrs && g.hint == f.hint && g.classes - {cls} == f.classes - {cls}
    ensures !(f.hint.Some? && f.value == "") ==> g == f
    ensures Consistent(f) ==> Consistent(g)
  {
    if f.hint.Some? && f.value == "" then Show(f, cls) else f
  }

  /** What one labelify call does to one field of its selection: skip it
      when the lookup gives no hint; otherwise cache the hint and, when the
      field is empty, show it. */
  function BindField(f: Field, s: Settings): (g: Field)
    requires WellFormed(f)
    ensures WellFormed(g) && g.attrs == f.attrs
    ensures Hint(s, f.attrs).None? ==> g == f
    ensures Hint(s, f.attrs).Some? ==> g.hint == Hint(s, f.attrs)
    ensures Hint(s, f.attrs).Some? && f.value == "" ==> Showing(g, s.labeledClass)
    ensures Hint(s, f.attrs).Some? && f.value == "" ==> g.classes - {s.labeledClass} == f.classes - {s.labeledClass}
    ensures f.value != "" ==> g.value == f.value && g.hasLabel == f.hasLabel && g.classes == f.classes
  {
    match Hint(s, f.attrs)
    case None => f
    case Some(h) =>
      var cached := f.(hint := Some(h));
      if cached.value == "" then Show(cached, s.labeledClass) else cached
  }

  /** Focusing a field that shows its hint and then leaving it empty brings
      back exactly the state before the focus. */
  lemma FocusThenBlur(f: Field, cls: string)
    requires WellFormed(f) && Showing(f, cls)
    ensures OnBlur(ClearIfHint(f, cls), cls) == f
  {
  }

  /** Leaving an empty bound field that is not flagged and lacks the hint
      class (Hidden), and then focusing it again, brings back exactly the
      state before the blur. */
  lemma BlurThenFocus(f: Field, cls: string)
    requires WellFormed(f) && f.hint.Some? && Hidden(f, cls)
    ensures ClearIfHint(OnBlur(f, cls), cls) == f
  {
  }

  /** Running the focus check twice is running it once; removeValuesOnExit
      is registered once per bound field, so it may run several times on one
      submit. */
  lemma ClearIfHintIdempotent(f: Field, cls: string)
    requires WellFormed(f)
    ensures ClearIfHint(ClearIfHint(f, cls), cls) == ClearIfHint(f, cls)
  {
  }

  /** Binding a field twice with the same settings is binding it once. */
  lemma BindFieldIdempotent(f: Field, s: Settings)
    requires WellFormed(f)
    ensures BindField(BindField(f, s), s) == BindField(f, s)
  {
  }

  /** Binding keeps the flag consistent with the value, provided a field
      that shows its hint is bound again with the same hint. */
  lemma BindFieldConsistent(f: Field, s: Settings)
    requires WellFormed(f) && Consistent(f)
    requires f.hasLabel && Hint(s, f.attrs).Some? ==> Hint(s, f.attrs) == f.hint
    ensures Consistent(BindField(f, s))
  {
  }

  /** Binding a field that shows a non-empty hint with a different hint
      keeps the old hint displayed as if the user had typed it, while the
      flag stays set: the flag and the value disagree from then on. */
  lemma RebindKeepsStaleHint(f: Field, s: Settings)
    requires WellFormed(f) && Consistent(f) && f.hasLabel && f.value != ""
    requires Hint(s, f.attrs).Some? && Hint(s, f.attrs) != f.hint
    ensures BindField(f, s).value == f.value && BindField(f, s).hasLabel
    ensures !Consistent(BindField(f, s))
  {
  }

  /** A field that shows an empty hint (one made only of line feeds) is
      empty, so binding it again with any hint shows the new one: the flag
      stays in step with the value. */
  lemma RebindEmptyHintShowsNew(f: Field, s: Settings)
    requires WellFormed(f) && Consistent(f) && f.hasLabel && f.hint == Some("")
    requires Hint(s, f.attrs).Some?
    ensures BindField(f, s).value == Hint(s, f.attrs).value
    ensures Showing(BindField(f, s), s.labeledClass) && Consistent(BindField(f, s))
  {
  }
}
