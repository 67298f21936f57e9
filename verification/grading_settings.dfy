/** The scale editor of components/GradingSettings.tsx and the scale state
    App.tsx keeps for it. A scale is an array of references to mutable
    `GradeDefinition` objects; both handlers copy the array but then write
    through the copied references, so every holder of the same objects,
    including the default scale, sees the change. */
module GradingSettings {
  import opened Types

  /** One mutable grading-scale entry. */
  class GradeDefinition {
    var letter: string
    var value: real
    var enabled: bool

    constructor (letter: string, value: real, enabled: bool)
      ensures this.letter == letter && this.value == value && this.enabled == enabled
    {
      this.letter := letter;
      this.value := value;
      this.enabled := enabled;
    }

    /** The entry as a value, as Dashboard and the table read it. */
    function View(): GradeDef
      reads this
    {
      GradeDef(letter, value, enabled)
    }
  }

  /** What a scale array currently holds, entry by entry. */
  function Snapshot(a: array<GradeDefinition>): (r: seq<GradeDef>)
    reads a, a[..]
    ensures |r| == a.Length
    ensures forall i :: 0 <= i < a.Length ==> r[i] == a[i].View()
  {
    seq(a.Length, i requires 0 <= i < a.Length reads a, a[..] => a[i].View())
  }

  /** No object occurs twice in the array. */
  predicate DistinctObjects(a: array<GradeDefinition>)
    reads a
  {
    forall i, j :: 0 <= i < j < a.Length ==> a[i] != a[j]
  }

  /** `[...scale]`: a fresh array holding the same object references. */
  method CopyScale(scale: array<GradeDefinition>) returns (updated: array<GradeDefinition>)
    ensures fresh(updated)
    ensures updated[..] == scale[..]
  {
    updated := new GradeDefinition[scale.Length](i requires 0 <= i < scale.Length reads scale => scale[i]);
  }

  /** `handleToggle`: the array handed to `onUpdate` holds the same objects,
      and the object at `index` has its flag flipped in place; its letter
      and value, and every other object, are untouched. */
  method HandleToggle(scale: array<GradeDefinition>, index: int) returns (updated: array<GradeDefinition>)
    requires 0 <= index < scale.Length
    modifies scale[index]
    ensures fresh(updated) && updated[..] == scale[..]
    ensures scale[index].View() == old(scale[index].View()).(enabled := !old(scale[index].enabled))
    ensures Snapshot(updated) == Snapshot(scale)
    ensures DistinctObjects(scale) ==>
      Snapshot(scale) == old(Snapshot(scale))[index := old(scale[index].View()).(enabled := !old(scale[index].enabled))]
  {
    updated := CopyScale(scale);
    updated[index].enabled := !updated[index].enabled;
  }

  /** The entry value stored by `handleValueChange`: `parseFloat(...) || 0`,
      so an unparsable input stores 0. */
  function ParsedValue(parsed: Option<real>): (v: real)
    ensures parsed.None? ==> v == 0.0
    ensures parsed.Some? ==> v == parsed.value
  {
    match parsed
    case Some(x) => x
    case None => 0.0
  }

  /** `handleValueChange`: like `HandleToggle`, but it sets the value of the
      object at `index`. */
  method HandleValueChange(scale: array<GradeDefinition>, index: int, parsed: Option<real>)
    returns (updated: array<GradeDefinition>)
    requires 0 <= index < scale.Length
    modifies scale[index]
    ensures fresh(updated) && updated[..] == scale[..]
    ensures scale[index].View() == old(scale[index].View()).(value := ParsedValue(parsed))
    ensures Snapshot(updated) == Snapshot(scale)
    ensures DistinctObjects(scale) ==>
      Snapshot(scale) == old(Snapshot(scale))[index := old(scale[index].View()).(value := ParsedValue(parsed))]
  {
    updated := CopyScale(scale);
    updated[index].value := ParsedValue(parsed);
  }

  /** Toggling the same entry twice restores its flag, and the scale handed
      on holds the original objects. */
  method ToggleTwice(scale: array<GradeDefinition>, index: int) returns (updated: array<GradeDefinition>)
    requires 0 <= index < scale.Length
    modifies scale[index]
    ensures updated[..] == scale[..]
    ensures scale[index].View() == old(scale[index].View())
  {
    var once := HandleToggle(scale, index);
    updated := HandleToggle(once, index);
  }

  /** `DEFAULT_GRADING_SCALE` as fresh objects. */
  method DefaultObjects() returns (a: array<GradeDefinition>)
    ensures fresh(a) && forall i :: 0 <= i < a.Length ==> fresh(a[i])
    ensures Snapshot(a) == DefaultScale()
  {
    var d := DefaultScale();
    var objs: seq<GradeDefinition> := [];
    for i := 0 to |d|
      invariant |objs| == i
      invariant forall j :: 0 <= j < i ==> fresh(objs[j]) && objs[j].View() == d[j]
    {
      var g := new GradeDefinition(d[i].letter, d[i].value, d[i].enabled);
      objs := objs + [g];
    }
    a := new GradeDefinition[|objs|](i requires 0 <= i < |objs| => objs[i]);
  }

  /** The `gradingScale` state of App.tsx: it starts as the default array
      and the reset button hands the default array back. */
  class ScaleState {
    var current: array<GradeDefinition>
    const defaults: array<GradeDefinition>

    constructor (defaults: array<GradeDefinition>)
      ensures this.defaults == defaults && current == defaults
    {
      this.defaults := defaults;
      current := defaults;
    }

    /** The settings panel toggles entry `index`; `onUpdate` stores the
        array the handler returns. */
    method Toggle(index: int)
      requires 0 <= index < current.Length
      modifies this, current[index]
      ensures current[..] == old(current[..])
      ensures current[index].View() == old(current[index].View()).(enabled := !old(current[index].enabled))
    {
      current := HandleToggle(current, index);
    }

    /** `onReset`: the state becomes the default array again. */
    method Reset()
      modifies this
      ensures current == defaults
    {
      current := defaults;
    }
  }

  /** Toggling `C-` on and then pressing reset does not give the default
      scale back: the toggle wrote into the default objects, so
      the reset hands back `C-` still enabled. */
  method ResetAfterToggle() returns (after: seq<GradeDef>)
    ensures |after| == 10 && after[7].letter == "C-" && after[7].enabled
    ensures after != DefaultScale()
  {
    DefaultEnabledEntries();
    var defaults := DefaultObjects();
    var st := new ScaleState(defaults);
    st.Toggle(7);
    st.Reset();
    after := Snapshot(st.current);
  }

  /** A toggle that replaces the entry at `index` by a fresh object instead
      of writing into the shared one: no existing object changes. */
  method HandleToggleCopying(scale: array<GradeDefinition>, index: int) returns (updated: array<GradeDefinition>)
    requires 0 <= index < scale.Length
    ensures fresh(updated)
    ensures Snapshot(updated) == Snapshot(scale)[index := scale[index].View().(enabled := !scale[index].enabled)]
  {
    updated := CopyScale(scale);
    var entry := new GradeDefinition(scale[index].letter, scale[index].value, !scale[index].enabled);
    updated[index] := entry;
  }

  /** The scale state with the copying toggle: the default objects are never
      written, so reset restores the default scale. */
  class CorrectedScaleState {
    var current: array<GradeDefinition>
    const defaults: array<GradeDefinition>

    /** The default array still holds the default scale. */
    predicate Valid()
      reads this, defaults, defaults[..]
    {
      Snapshot(defaults) == DefaultScale()
    }

    constructor (defaults: array<GradeDefinition>)
      requires Snapshot(defaults) == DefaultScale()
      ensures Valid() && this.defaults == defaults && current == defaults
    {
      this.defaults := defaults;
      current := defaults;
    }

    method Toggle(index: int)
      requires Valid() && 0 <= index < current.Length
      modifies this
      ensures Valid()
      ensures Snapshot(current)
           == old(Snapshot(current))[index := old(current[index].View()).(enabled := !old(current[index].enabled))]
    {
      current := HandleToggleCopying(current, index);
    }

    method Reset()
      requires Valid()
      modifies this
      ensures Valid() && Snapshot(current) == DefaultScale()
    {
      current := defaults;
    }
  }

  /** With the copying toggle, toggling `C-` and resetting gives the default
      scale back. */
  method CorrectedResetAfterToggle() returns (after: seq<GradeDef>)
    ensures after == DefaultScale()
  {
    var defaults := DefaultObjects();
    var st := new CorrectedScaleState(defaults);
    st.Toggle(7);
    st.Reset();
    after := Snapshot(st.current);
  }
}
