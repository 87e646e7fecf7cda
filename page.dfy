/** The document as jQuery.labelify sees it: every input and textarea, in
    document order, whose values and data the plugin updates in place. A
    selection is a sequence of positions in that array. */
module Labelify {
  import opened Lookups
  import opened Fields

  /** What `labelify(...)` returns: the answer to the hasLabel query, or
      the selection itself, for chaining. */
  datatype Reply = Flag(answer: Option<bool>) | Chained(selection: seq<nat>)

  /** The first step of serialize on one field: empty it when it is flagged. */
  function ClearFlagged(f: Field): Field
  {
    if f.hasLabel then f.(value := "") else f
  }

  /** The last step of serialize on one field: write the cached hint back
      into it when it is flagged. */
  function RestoreFlagged(f: Field): (g: Field)
    requires WellFormed(f)
    ensures f.hasLabel ==> f.hint == Some(g.value)
    ensures !f.hasLabel ==> g == f
    ensures g.(value := f.value) == f
  {
    if f.hasLabel then f.(value := f.hint.value) else f
  }

  /** The page after serialize's first loop: every flagged field is empty,
      every other field keeps its value, and nothing but values changes. */
  function Cleared(fs: seq<Field>): (r: seq<Field>)
    ensures |r| == |fs|
    ensures forall i :: 0 <= i < |fs| ==>
      r[i].value == (if fs[i].hasLabel then "" else fs[i].value) && r[i].(value := fs[i].value) == fs[i]
    ensures forall i :: 0 <= i < |fs| && WellFormed(fs[i]) ==> WellFormed(r[i])
  {
    seq(|fs|, i requires 0 <= i < |fs| => ClearFlagged(fs[i]))
  }

  /** The page after serialize's last loop: every flagged field displays
      its cached hint, every other field keeps its value, and nothing but
      values changes. */
  function Restored(fs: seq<Field>): (r: seq<Field>)
    requires forall i :: 0 <= i < |fs| ==> WellFormed(fs[i])
    ensures |r| == |fs|
    ensures forall i :: 0 <= i < |fs| && fs[i].hasLabel ==> fs[i].hint == Some(r[i].value)
    ensures forall i :: 0 <= i < |fs| && !fs[i].hasLabel ==> r[i].value == fs[i].value
    ensures forall i :: 0 <= i < |fs| ==> r[i].(value := fs[i].value) == fs[i]
  {
    seq(|fs|, i requires 0 <= i < |fs| => RestoreFlagged(fs[i]))
  }

  /** The values serializeArray reads: those of the form's fields, in order. */
  function FormValues(fs: seq<Field>, form: seq<nat>): seq<string>
    requires forall k :: 0 <= k < |form| ==> form[k] < |fs|
  {
    seq(|form|, k requires 0 <= k < |form| => fs[form[k]].value)
  }

  /** The snapshot sees "" for every flagged field and the displayed value
      of every other one. */
  lemma SnapshotHidesHints(fs: seq<Field>, form: seq<nat>)
    requires forall k :: 0 <= k < |form| ==> form[k] < |fs|
    ensures |FormValues(Cleared(fs), form)| == |form|
    ensures forall k :: 0 <= k < |form| ==>
      FormValues(Cleared(fs), form)[k] == if fs[form[k]].hasLabel then "" else fs[form[k]].value
  {
  }

  /** After serialize every flagged field displays its cached hint again,
      every other field keeps its value, and nothing but values changes:
      the flag agrees with the value everywhere afterwards. */
  lemma ClearThenRestore(fs: seq<Field>)
    requires forall i :: 0 <= i < |fs| ==> WellFormed(fs[i])
    ensures |Restored(Cleared(fs))| == |fs|
    ensures forall i :: 0 <= i < |fs| ==>
      var g := Restored(Cleared(fs))[i];
      g == fs[i].(value := if fs[i].hasLabel then fs[i].hint.value else fs[i].value) && Consistent(g)
  {
  }

  /** A value written into a flagged field from outside the plugin (typing
      without a focus event, autofill, a script) leaves the flag set while
      the value differs from the hint. Serialize then reads "" for that
      field and writes the cached hint over the written value. */
  lemma OutsideWriteLost(fs: seq<Field>, i: nat)
    requires forall j :: 0 <= j < |fs| ==> WellFormed(fs[j])
    requires i < |fs| && fs[i].hasLabel && fs[i].hint != Some(fs[i].value)
    ensures FormValues(Cleared(fs), [i]) == [""]
    ensures Restored(Cleared(fs))[i].value == fs[i].hint.value != fs[i].value
  {
  }

  /** The serialize round trip: when every flagged field displays its
      cached hint, clearing and restoring leaves every field as it was. */
  lemma SerializeRoundTrip(fs: seq<Field>)
    requires forall i :: 0 <= i < |fs| ==> WellFormed(fs[i]) && Consistent(fs[i])
    ensures Restored(Cleared(fs)) == fs
  {
  }

  class Page {
    const fields: array<Field>

    ghost predicate Valid()
      reads fields
    {
      forall i :: 0 <= i < fields.Length ==> WellFormed(fields[i])
    }

    /** Every flagged field displays its cached hint. */
    ghost predicate AllConsistent()
      reads fields
    {
      forall i :: 0 <= i < fields.Length ==> Consistent(fields[i])
    }

    predicate InRange(sel: seq<nat>)
    {
      forall k :: 0 <= k < |sel| ==> sel[k] < fields.Length
    }

    constructor (init: seq<Field>)
      requires forall i :: 0 <= i < |init| ==> WellFormed(init[i])
      ensures Valid() && fresh(fields) && fields[..] == init
    {
      fields := new Field[|init|](i requires 0 <= i < |init| => init[i]);
    }

    /** showLabel on the field at position i. */
    method ShowLabel(i: nat, cls: string)
      requires Valid() && i < fields.Length && fields[i].hint.Some?
      modifies fields
      ensures Valid()
      ensures fields[..] == old(fields[..])[i := Show(old(fields[i]), cls)]
    {
      fields[i] := Show(fields[i], cls);
    }

    /** hideLabel on the field at position i. */
    method HideLabel(i: nat, cls: string)
      requires Valid() && i < fields.Length
      modifies fields
      ensures Valid()
      ensures fields[..] == old(fields[..])[i := Hide(old(fields[i]), cls)]
    {
      fields[i] := Hide(fields[i], cls);
    }

    /** The focus handler of a call whose class is cls. On a field that was
        never bound there is no handler, and the test fails there anyway:
        the value is never equal to an absent hint. */
    method Focus(i: nat, cls: string)
      requires Valid() && i < fields.Length
      modifies fields
      ensures Valid()
      ensures fields[..] == old(fields[..])[i := ClearIfHint(old(fields[i]), cls)]
      ensures old(AllConsistent()) ==> AllConsistent()
    {
      if fields[i].hint == Some(fields[i].value) {
        HideLabel(i, cls);
      }
    }

    /** The blur handler of a call whose class is cls; it exists only on
        fields with a cached hint. */
    method Blur(i: nat, cls: string)
      requires Valid() && i < fields.Length
      modifies fields
      ensures Valid()
      ensures fields[..] == old(fields[..])[i := OnBlur(old(fields[i]), cls)]
      ensures old(AllConsistent()) ==> AllConsistent()
    {
      if fields[i].hint.Some? && fields[i].value == "" {
        ShowLabel(i, cls);
      }
    }

    /** removeValuesOnExit of a call over the selection sel: every field of
        the selection whose value equals its cached hint is emptied. */
    method RemoveValuesOnExit(sel: seq<nat>, cls: string)
      requires Valid() && InRange(sel)
      modifies fields
      ensures Valid()
      ensures forall j :: 0 <= j < fields.Length ==>
        fields[j] == if j in sel then ClearIfHint(old(fields[j]), cls) else old(fields[j])
      ensures old(AllConsistent()) ==> AllConsistent()
    {
      var k := 0;
      while k < |sel|
        invariant 0 <= k <= |sel|
        invariant Valid()
        invariant forall j :: 0 <= j < fields.Length ==>
          fields[j] == if j in sel[..k] then ClearIfHint(old(fields[j]), cls) else old(fields[j])
      {
        var i := sel[k];
        if i in sel[..k] {
          ClearIfHintIdempotent(old(fields[i]), cls);
        }
        if fields[i].hint == Some(fields[i].value) {
          HideLabel(i, cls);
        }
        assert sel[..k + 1] == sel[..k] + [i];
        k := k + 1;
      }
      assert sel[..k] == sel;
    }

    /** The `each` loop of labelify: bind every field of the selection that
        the lookup gives a hint for. */
    method Bind(sel: seq<nat>, s: Settings)
      requires Valid() && InRange(sel)
      modifies fields
      ensures Valid()
      ensures forall j :: 0 <= j < fields.Length ==>
        fields[j] == if j in sel then BindField(old(fields[j]), s) else old(fields[j])
      ensures old(AllConsistent()) &&
              (forall j :: 0 <= j < fields.Length && j in sel && old(fields[j]).hasLabel && Hint(s, old(fields[j]).attrs).Some? ==>
                 Hint(s, old(fields[j]).attrs) == old(fields[j]).hint)
              ==> AllConsistent()
    {
      var k := 0;
      while k < |sel|
        invariant 0 <= k <= |sel|
        invariant Valid()
        invariant forall j :: 0 <= j < fields.Length ==>
          fields[j] == if j in sel[..k] then BindField(old(fields[j]), s) else old(fields[j])
      {
        var i := sel[k];
        if i in sel[..k] {
          BindFieldIdempotent(old(fields[i]), s);
        }
        var raw := Lookup(s.text, fields[i].attrs);
        if IsFunction(s.text) && Truthy(raw) {
          fields[i] := fields[i].(hint := Some(StripNewlines(raw.value)));
          if fields[i].value == "" {
            ShowLabel(i, s.labeledClass);
          }
        }
        assert sel[..k + 1] == sel[..k] + [i];
        k := k + 1;
      }
      assert sel[..k] == sel;
      forall j | 0 <= j < fields.Length && old(AllConsistent()) &&
                 (forall j :: 0 <= j < fields.Length && j in sel && old(fields[j]).hasLabel && Hint(s, old(fields[j]).attrs).Some? ==>
                    Hint(s, old(fields[j]).attrs) == old(fields[j]).hint)
        ensures Consistent(fields[j])
      {
        if j in sel {
          BindFieldConsistent(old(fields[j]), s);
        }
      }
    }

    /** The hasLabel query: the flag of the first field of the selection. */
    method HasLabel(sel: seq<nat>) returns (r: Option<bool>)
      requires InRange(sel)
      ensures r.Some? <==> |sel| > 0
      ensures |sel| > 0 ==> r.value == fields[sel[0]].hasLabel
    {
      if |sel| == 0 {
        r := None;
      } else {
        r := Some(fields[sel[0]].hasLabel);
      }
    }

    /** `labelify(arg)` on the selection sel. */
    method Labelify(sel: seq<nat>, arg: Arg) returns (reply: Reply)
      requires Valid() && InRange(sel)
      modifies fields
      ensures Valid()
      ensures Interpret(arg).HasLabelQuery? ==>
        fields[..] == old(fields[..]) && reply == Flag(if |sel| == 0 then None else Some(fields[sel[0]].hasLabel))
      ensures Interpret(arg).Bind? ==> reply == Chained(sel)
      ensures Interpret(arg).Bind? ==> forall j :: 0 <= j < fields.Length ==>
        fields[j] == if j in sel then BindField(old(fields[j]), Interpret(arg).settings) else old(fields[j])
    {
      match Interpret(arg)
      case HasLabelQuery =>
        var r := HasLabel(sel);
        reply := Flag(r);
      case Bind(s) =>
        Bind(sel, s);
        reply := Chained(sel);
    }

    /** The positions of the fields whose flag is set, in document order:
        the `labelified` list serialize builds. */
    method Labelified() returns (idx: seq<nat>)
      ensures forall j: nat :: j in idx <==> j < fields.Length && fields[j].hasLabel
      ensures forall a :: 0 <= a < |idx| ==> idx[a] < fields.Length
      ensures forall a, b :: 0 <= a < b < |idx| ==> idx[a] < idx[b]
    {
      idx := [];
      var i := 0;
      while i < fields.Length
        invariant 0 <= i <= fields.Length
        invariant forall j: nat :: j in idx <==> j < i && fields[j].hasLabel
        invariant forall a, b :: 0 <= a < b < |idx| ==> idx[a] < idx[b]
        invariant forall a :: 0 <= a < |idx| ==> idx[a] < i
      {
        if fields[i].hasLabel {
          idx := idx + [i];
        }
        i := i + 1;
      }
    }

    /** serialize: empty every flagged field, read the form's values, then
        write the cached hints back. */
    method Serialize(form: seq<nat>) returns (data: seq<string>)
      requires Valid() && InRange(form)
      modifies fields
      ensures Valid()
      ensures data == FormValues(Cleared(old(fields[..])), form)
      ensures fields[..] == Restored(Cleared(old(fields[..])))
      ensures AllConsistent()
      ensures old(AllConsistent()) ==> fields[..] == old(fields[..])
    {
      var labelified := Labelified();
      ghost var before := fields[..];

      // Empty every flagged field
      var k := 0;
      while k < |labelified|
        invariant 0 <= k <= |labelified|
        invariant Valid()
        invariant forall j :: 0 <= j < fields.Length ==>
          fields[j] == if j in labelified[..k] then ClearFlagged(before[j]) else before[j]
      {
        var i := labelified[k];
        fields[i] := fields[i].(value := "");
        assert labelified[..k + 1] == labelified[..k] + [i];
        k := k + 1;
      }
      assert labelified[..k] == labelified;
      assert fields[..] == Cleared(before);

      data := FormValues(fields[..], form);

      // Write the cached hints back
      ghost var cleared := fields[..];
      k := 0;
      while k < |labelified|
        invariant 0 <= k <= |labelified|
        invariant Valid()
        invariant forall j :: 0 <= j < fields.Length ==>
          fields[j] == if j in labelified[..k] then RestoreFlagged(cleared[j]) else cleared[j]
      {
        var i := labelified[k];
        fields[i] := fields[i].(value := fields[i].hint.value);
        assert labelified[..k + 1] == labelified[..k] + [i];
        k := k + 1;
      }
      assert labelified[..k] == labelified;
      assert fields[..] == Restored(cleared);
      ClearThenRestore(before);
      if old(AllConsistent()) {
        SerializeRoundTrip(before);
      }
    }
  }
}
