# jQuery.labelify in Dafny

jQuery.labelify shows a hint inside empty text fields. The hint comes from the
field's `title` attribute, from the text of its `<label for=…>`, or from a
function the caller supplies. The plugin caches the hint on the field as
`data("label")`. It keeps a flag `data("hasLabel")` while the hint is on
display, and it adds a CSS class (`labeledClass`) at the same time. Focusing a
field that shows its hint empties it. Leaving an empty field shows the hint
again. On form submit and page unload, every field whose value equals its hint
is emptied. The plugin also replaces jQuery's `serialize`: it empties the
flagged fields, reads the form, and writes the hints back.

The model has three modules:

- `Lookups` (lookups.dfy): the option merge with its defaults and the
  `labelledClass` alias, the `"hasLabel"` query dispatch, the two named lookup
  strategies and caller-supplied functions, and the newline stripping. It also
  gives the hint a field is bound with, or none when binding skips the field.
- `Fields` (fields.dfy): one field as a record (`value`, cached `hint`,
  `hasLabel`, CSS classes) and its transitions as functions. These are
  showLabel, hideLabel, the focus test (also used by removeValuesOnExit), the
  blur handler and binding one field. The module proves the round trips and
  idempotence laws the page's loops rely on.
- `Labelify` (page.dfy): class `Page`, the document's inputs and textareas as
  an `array<Field>` updated in place. Its methods are the plugin's closures
  and handlers: `ShowLabel`, `HideLabel`, `Focus`, `Blur`,
  `RemoveValuesOnExit`, `Bind` (the `each` loop), `HasLabel`, `Labelify` (the
  entry point) and `Serialize` with its `Labelified` scan. The handler and
  binding methods state the new array as the old one with a function of
  `Fields` applied to the positions they touch. `Serialize` states its
  snapshot and its final array through `Cleared`, `Restored` and
  `FormValues`, defined in page.dfy beside the class. `HasLabel` and
  `Labelified` only read the array.

Events are method calls. A handler takes the class of the labelify call that
installed it (`cls`). A selection is a sequence of positions in the array and
may repeat a position. Repeats are harmless because binding and the focus
test are idempotent (`BindFieldIdempotent`, `ClearIfHintIdempotent`).

Behaviour the model follows from jquery.labelify.js, where a plain reading of
the plugin's purpose might expect otherwise:

- The skip test at jquery.labelify.js:78 looks at the raw lookup answer.
  Newlines are stripped only afterwards, at line 84. So a hint made only of
  line feeds binds the field, with `""` as its cached hint (`NewlineOnlyHint`).
- The focus handler and removeValuesOnExit compare the value with the cached
  hint. They do not look at the flag. A user who typed exactly the hint text
  loses it on focus and on submit.
- Binding a field again with a different hint, while it shows a non-empty
  hint, leaves the old hint displayed and the flag set
  (`RebindKeepsStaleHint`). From then on, `serialize` replaces that text with
  the new hint. A field that shows the empty hint of the newline-only case is
  empty, so binding it again shows the new hint (`RebindEmptyHintShowsNew`).
  Among the operations of this model, every other one keeps the flag in step
  with the value (`AllConsistent`). A value written from outside the plugin
  is not one of them (see "Left out").
- `serialize` empties flagged fields anywhere on the page
  (`$('input, textarea')`, line 109), not only in the serialized form.
- `serialize` has no `try`/`finally`. Restoring the hints after a failing
  `serializeArray` is not part of this code.
- The blur handler compares with `''`. Comparing with the field's original
  default value is not part of this code.
- The option names are `text` and `labeledClass`, with `labelledClass` as the
  old alias.

## Model

| member | source | states |
|---|---|---|
| `Lookups.Merge` | jquery.labelify.js:35-41 | `text` defaults to `"title"` and the class to `""`. A given key overrides its default. A non-empty `labelledClass` overrides `labeledClass`. An absent or empty `labelledClass` leaves `labeledClass` as given, or `""` when it is absent. |
| `Lookups.Interpret` | jquery.labelify.js:24-38 | Only the exact string `"hasLabel"` is the query. An options object binds with the merged settings. No argument, or any other string, binds with the defaults. |
| `Lookups.StripNewlines` | jquery.labelify.js:84 | The result has no line feed. Every other character keeps its count. A string without line feeds comes back unchanged. |
| `Lookups.StripNewlinesConcat` | jquery.labelify.js:84 | Stripping distributes over concatenation, so the characters that are not line feeds keep their order. With the unchanged line-feed-free strings and `OnlyNewlinesStripToEmpty`, this fixes the cached hint's text. |
| `Lookups.Hint` | jquery.labelify.js:71-84 | A field gets a hint exactly when the `text` setting is a function (`"title"`, `"label"` or the caller's) and its raw answer is truthy. The hint is that answer with line feeds removed, so it never holds a line feed. |
| `Lookups.NewlineOnlyHint` | jquery.labelify.js:78-84 | A raw hint made only of line feeds passes the skip test and is cached as `""`. |
| `Lookups.OnlyNewlinesStripToEmpty` | jquery.labelify.js:84 | Stripping a string made only of line feeds gives `""`. |
| `Fields.Show` | jquery.labelify.js:55-58 | showLabel leaves the field showing its cached hint: value equal to the hint, flag set, class on. Attributes, hint and other classes are kept, and the flag agrees with the value. |
| `Fields.Hide` | jquery.labelify.js:59-62 | hideLabel leaves the field empty, with the flag cleared and the class off. Attributes, hint and other classes are kept. |
| `Fields.ClearIfHint` | jquery.labelify.js:80-81 | Focus on a field whose value equals its cached hint hides the hint. Focus on any other field, including one never bound, changes nothing. Focus keeps the flag consistent. |
| `Fields.OnBlur` | jquery.labelify.js:82-83 | Blur on an empty bound field shows the hint. Blur on a non-empty field changes nothing. Blur keeps the flag consistent. |
| `Fields.BindField` | jquery.labelify.js:67-102 | With no hint the field is untouched: no cached hint, no flag, same value. With a hint, the hint is cached, and an empty field then shows it with flag and class, keeping its other classes. A field with a value keeps its value, flag and classes. |
| `Fields.FocusThenBlur` | jquery.labelify.js:80-83 | Focusing a field that shows its hint and then leaving it empty restores it exactly. |
| `Fields.BlurThenFocus` | jquery.labelify.js:80-83 | Leaving an empty bound field that is not flagged and lacks the hint class (`Hidden`), and focusing it again, restores it exactly. |
| `Fields.ClearIfHintIdempotent` | jquery.labelify.js:86-93 | Running removeValuesOnExit's test twice on a field equals running it once. The closure is registered once per bound field, so it may run several times on one submit. |
| `Fields.BindFieldIdempotent` | jquery.labelify.js:67-102 | Binding a field twice with the same settings equals binding it once. |
| `Fields.BindFieldConsistent` | jquery.labelify.js:84-101 | Binding keeps "flag set implies value equals hint" when a field that shows its hint gets the same hint again. |
| `Fields.RebindKeepsStaleHint` | jquery.labelify.js:84-98 | Binding a field that shows a non-empty hint with a different hint keeps the old text displayed and the flag set. The flag then disagrees with the value. |
| `Fields.RebindEmptyHintShowsNew` | jquery.labelify.js:84-101 | A field that shows the empty hint is empty, so binding it again with any hint shows the new hint with flag and class. The flag agrees with the value. |
| `Labelify.Cleared` | jquery.labelify.js:116 | After the first loop every flagged field is `""`, every other field keeps its value, and nothing but values changes. Well-formed fields stay well formed. |
| `Labelify.RestoreFlagged` | jquery.labelify.js:122 | Restoring one field writes its cached hint back when it is flagged and leaves it alone otherwise. Only the value changes. |
| `Labelify.Restored` | jquery.labelify.js:122 | After the last loop every flagged field displays its cached hint, every other field keeps its value, and nothing but values changes. |
| `Labelify.SnapshotHidesHints` | jquery.labelify.js:108-119 | The values serialize reads are `""` for every flagged field and the displayed value for every other field. |
| `Labelify.ClearThenRestore` | jquery.labelify.js:108-122 | After clear and restore, every flagged field displays its cached hint. Every other field keeps its value, nothing but values changes, and the flag agrees with the value everywhere. |
| `Labelify.OutsideWriteLost` | jquery.labelify.js:108-122 | On a flagged field whose value differs from its hint, serialize reads `""` and then writes the cached hint over the value. |
| `Labelify.SerializeRoundTrip` | jquery.labelify.js:108-122 | When every flagged field displays its hint, clear then restore leaves every field exactly as it was. |
| `Labelify.Page.ShowLabel` | jquery.labelify.js:55-58 | Replaces field i, in place, with `Show` of it. Nothing else changes. |
| `Labelify.Page.HideLabel` | jquery.labelify.js:59-62 | Replaces field i, in place, with `Hide` of it. Nothing else changes. |
| `Labelify.Page.Focus` | jquery.labelify.js:80-81 | Applies `ClearIfHint` to field i in place. Nothing else changes. Consistency of every field is preserved. |
| `Labelify.Page.Blur` | jquery.labelify.js:82-83 | Applies `OnBlur` to field i in place. Nothing else changes. Consistency of every field is preserved. |
| `Labelify.Page.RemoveValuesOnExit` | jquery.labelify.js:86-90 | Every field of the selection becomes `ClearIfHint` of its old state, so exactly those whose value equals their hint are emptied. Fields outside the selection are untouched, and consistency is preserved. |
| `Labelify.Page.Bind` | jquery.labelify.js:67-102 | Every field of the selection becomes `BindField` of its old state. Fields outside it are untouched. Consistency is preserved when no showing field gets a different hint. |
| `Labelify.Page.HasLabel` | jquery.labelify.js:26-28 | The query answers the flag of the first field of the selection, and nothing for an empty selection. |
| `Labelify.Page.Labelify` | jquery.labelify.js:24-102 | The query changes nothing and returns the flag. Any other call binds the selection with the interpreted settings and returns the selection. |
| `Labelify.Page.Labelified` | jquery.labelify.js:107-113 | Returns the positions of exactly the flagged fields, in strictly increasing order. |
| `Labelify.Page.Serialize` | jquery.labelify.js:106-126 | Returns the form's values with flagged fields read as `""`. Leaves every flagged field showing its hint again and every other field as it was. The flag agrees with the value afterwards. When it agreed before, the page is unchanged. |

Helpers without a contract of their own, whose meaning the rows above state:
`Lookups.Lookup` (jquery.labelify.js:44-51, 71-75) and `Lookups.Truthy`
(line 78) through `Lookups.Hint`; `Lookups.IsFunction` (line 78) through
`Lookups.Hint`; `Labelify.ClearFlagged` (line 116) through `Labelify.Cleared`;
and `Labelify.FormValues` (line 119) through `Labelify.SnapshotHidesHints`.

## Left out

- Event registration is left out: `bind('focus.label')`, `bind('blur.label')`, the form's `submit` and `$(window).unload` (jquery.labelify.js:80-93). Handlers are methods the caller invokes, with the class of the call that installed them. This means the model does not track which form a field belongs to. It also does not track that removeValuesOnExit is registered only once some field of the selection was bound.
- When several labelify calls bind one field, each call installs its own focus and blur handlers with its own class. The model runs one handler per event.
- Writes to a field's value from outside the plugin are not operations of the model: typing, browser autofill and a script's `.val()`. Typing after a focus event is safe, because focus hides the hint first. A write into a flagged field without a preceding focus leaves the flag set while the value differs from the hint, which breaks `Consistent`. `serialize` then sends `""` for that field (jquery.labelify.js:116) and writes the hint over the value (line 122), as `OutsideWriteLost` states.
- DOM reads are left out: `attr('title')` and the `label[for=id]` query (jquery.labelify.js:44-51). Their answers are the field's read-only `Attrs`. Selector errors from ids with special characters are not modelled.
- A string `text` setting that names an inherited property of a plain object (such as `"toString"`) finds a function in the source. The model treats every name other than `"title"` and `"label"` as no function.
- A caller's lookup function is a pure function of the field's attributes. Side effects, reading the field's changing value, and truthy answers that are not strings (for which `replace` throws) are not modelled.
- `serializeArray` and `$.param` (jquery.labelify.js:119, 125) are library calls. The snapshot is the sequence of the form's field values. Field names, disabled fields, other control types and URL encoding are not modelled.
- `Labelify.Page.HasLabel` reports `false` where the source reports `undefined`: on a field never shown or hidden. Both are falsy to every caller in this code.
- The class option is one class name. A space-separated list of names is not split.
- The `labeledClass` helper at jquery.labelify.js:63-65 has no effect and is not modelled.
- Arguments to `labelify` other than nothing, a string or an options object (a number, say) are not modelled.
