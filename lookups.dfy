/** Settings and hint lookup of jQuery.labelify: how the plugin's options are
    merged with their defaults, how the `text` option picks a lookup strategy,
    and how the strategy's answer becomes the cached hint of a field. */
module Lookups {

  datatype Option<T> = None | Some(value: T)

  /** What the lookup strategies read from a form field. The plugin never
      writes these. */
  datatype Attrs = Attrs(
    title: Option<string>,  // the title attribute; None when it is absent
    labelText: string)      // the text of the <label for="id"> elements of the field, "" when there are none

  /** The `text` option: a strategy name, a caller's function, or any other
      value (a number, an object, null). */
  datatype Source =
    | Named(name: string)
    | Func(lookup: Attrs -> Option<string>)
    | NotAFunction

  /** The options object the caller passes; None is a key left undefined. */
  datatype Options = Options(
    text: Option<Source>,
    labeledClass: Option<string>,
    labelledClass: Option<string>)  // the spelling of version 1.3 and earlier

  /** The merged settings one labelify call works with. */
  datatype Settings = Settings(text: Source, labeledClass: string)

  /** The single argument of `labelify(...)`. */
  datatype Arg = Absent | Text(s: string) | Object(options: Options)

  /** What a labelify call does: answer the hasLabel query or bind fields. */
  datatype Call = HasLabelQuery | Bind(settings: Settings)

  predicate IsDefault(s: Settings)
  {
    s.text.Named? && s.text.name == "title" && s.labeledClass == ""
  }

  /** Merges the caller's options over the defaults `{text: 'title',
      labeledClass: ''}`, then lets a truthy `labelledClass` override
      `labeledClass`. */
  function Merge(o: Options): (s: Settings)
    ensures o.text.None? ==> s.text.Named? && s.text.name == "title"
    ensures o.text.Some? ==> s.text == o.text.value
    ensures o.labelledClass.Some? && o.labelledClass.value != "" ==> s.labeledClass == o.labelledClass.value
    ensures (o.labelledClass.None? || o.labelledClass.value == "") && o.labeledClass.Some? ==> s.labeledClass == o.labeledClass.value
    ensures (o.labelledClass.None? || o.labelledClass.value == "") && o.labeledClass.None? ==> s.labeledClass == ""
  {
    var text := if o.text.Some? then o.text.value else Named("title");
    var cls := if o.labeledClass.Some? then o.labeledClass.value else "";
    var cls' := if o.labelledClass.Some? && o.labelledClass.value != "" then o.labelledClass.value else cls;
    Settings(text, cls')
  }

  /** Dispatch on the argument: only the exact string "hasLabel" is a query.
      Any other string, or no argument, binds with the default settings,
      since extending the defaults with a string adds no `text` or class key. */
  function Interpret(arg: Arg): (c: Call)
    ensures c.HasLabelQuery? <==> arg.Text? && arg.s == "hasLabel"
    ensures arg.Object? ==> c == Bind(Merge(arg.options))
    ensures !arg.Object? && c.Bind? ==> IsDefault(c.settings)
  {
    match arg
    case Text(s) => if s == "hasLabel" then HasLabelQuery else Bind(Merge(Options(None, None, None)))
    case Absent => Bind(Merge(Options(None, None, None)))
    case Object(o) => Bind(Merge(o))
  }

  /** True when the `text` setting resolves to a function: one of the two
      named strategies, or a function the caller supplied. */
  predicate IsFunction(text: Source)
  {
    text.Func? || (text.Named? && (text.name == "title" || text.name == "label"))
  }

  /** `lookup(this)`: the answer of the chosen strategy for one field; None
      stands for `undefined`, and for a setting that is not a function. */
  function Lookup(text: Source, a: Attrs): Option<string>
  {
    match text
    case Named(name) =>
      if name == "title" then a.title
      else if name == "label" then Some(a.labelText)
      else None
    case Func(f) => f(a)
    case NotAFunction => None
  }

  /** JavaScript truthiness of a lookup answer: defined and not "". */
  predicate Truthy(r: Option<string>)
  {
    r.Some? && r.value != ""
  }

  /** `replace(/\n/g, '')`: removes every line feed, keeps everything else in
      order. */
  function StripNewlines(s: string): (r: string)
    ensures '\n' !in r
    ensures |r| <= |s|
    ensures '\n' !in s ==> r == s
    ensures forall c :: c != '\n' ==> multiset(r)[c] == multiset(s)[c]
  {
    if s == [] then []
    else
      assert s == [s[0]] + s[1..];
      if s[0] == '\n' then StripNewlines(s[1..]) else [s[0]] + StripNewlines(s[1..])
  }

  /** Stripping works character by character: the line feeds of each part
      go and the rest stays in order, so with the unchanged strings without
      line feeds this fixes the result. */
  lemma {:induction false} StripNewlinesConcat(a: string, b: string)
    ensures StripNewlines(a + b) == StripNewlines(a) + StripNewlines(b)
  {
    if a == [] {
      assert a + b == b;
    } else {
      assert (a + b)[1..] == a[1..] + b;
      StripNewlinesConcat(a[1..], b);
    }
  }

  /** The hint a field is bound with, or None when binding skips it. The
      skip test looks at the raw answer, before newlines are stripped. */
  function Hint(s: Settings, a: Attrs): (h: Option<string>)
    ensures h.Some? <==> IsFunction(s.text) && Truthy(Lookup(s.text, a))
    ensures h.Some? ==> '\n' !in h.value
    ensures h.Some? ==> h.value == StripNewlines(Lookup(s.text, a).value)
  {
    var raw := Lookup(s.text, a);
    if Truthy(raw) then Some(StripNewlines(raw.value)) else None
  }

  /** A hint made only of line feeds passes the skip test and is cached as
      the empty string. */
  lemma {:induction false} NewlineOnlyHint(s: Settings, a: Attrs)
    requires Lookup(s.text, a).Some?
    requires var raw := Lookup(s.text, a).value; raw != [] && forall k :: 0 <= k < |raw| ==> raw[k] == '\n'
    ensures Hint(s, a) == Some("")
  {
    var raw := Lookup(s.text, a).value;
    OnlyNewlinesStripToEmpty(raw);
  }

  lemma {:induction false} OnlyNewlinesStripToEmpty(s: string)
    requires forall k :: 0 <= k < |s| ==> s[k] == '\n'
    ensures StripNewlines(s) == ""
  {
    if s != [] {
      OnlyNewlinesStripToEmpty(s[1..]);
    }
  }
}
