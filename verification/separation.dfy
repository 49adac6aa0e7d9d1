/**
  The separation tracker: the two tracked variables' entries, the last computed
  separation and the min/max bounds. Only the "some tracked entry is unknown"
  branch of the separation computation exists in the source; when every entry is
  known the computation falls off the end of a value-returning function, which
  is modelled as "no value" (`None`).
 */
module Separation {
  import opened ValueStore

  datatype SeparationTracker = SeparationTracker(
    nameOne: string,
    nameTwo: string,
    entries: Vars,     // the tracked variables and their current values
    separation: Val,
    min: Val,
    max: Val)

  /** The constructor: both tracked variables, the separation and the bounds start unknown. */
  function NewSeparationTracker(nameOne: string, nameTwo: string): (t: SeparationTracker)
    ensures t.nameOne == nameOne && t.nameTwo == nameTwo
    ensures t.entries.Keys == {nameOne, nameTwo}
    ensures forall k :: k in t.entries ==> t.entries[k] == Unknown
    ensures t.separation == Unknown && t.min == Unknown && t.max == Unknown
  {
    SeparationTracker(nameOne, nameTwo, map[nameOne := Unknown, nameTwo := Unknown],
                      Unknown, Unknown, Unknown)
  }

  ghost predicate HasUnknown(entries: Vars)
  {
    exists k :: k in entries && entries[k].Unknown?
  }

  /**
    `calculateSeparation`: walks the tracked entries in the map's iteration order
    `order` (any enumeration of the keys) and, at the first unknown entry, sets the
    separation to unknown and returns unknown. The entries are only read.
   */
  method CalculateSeparation(t: SeparationTracker, order: seq<string>)
    returns (t': SeparationTracker, r: Option<Val>)
    requires forall k :: k in t.entries ==> k in order
    requires forall j :: 0 <= j < |order| ==> order[j] in t.entries
    ensures HasUnknown(t.entries) ==> r == Some(Unknown) && t' == t.(separation := Unknown)
    ensures !HasUnknown(t.entries) ==> r == None && t' == t
    ensures t'.entries == t.entries
  {
    var i := 0;
    while i < |order|
      invariant 0 <= i <= |order|
      invariant forall j :: 0 <= j < i ==> t.entries[order[j]].Known?
    {
      if t.entries[order[i]].Unknown? {
        t' := t.(separation := Unknown);
        r := Some(Unknown);
        return;
      }
      i := i + 1;
    }
    t' := t;
    r := None;
  }

  /** A freshly constructed tracker reports an unknown separation, whichever names it tracks. */
  lemma FreshTrackerIsUnknown(nameOne: string, nameTwo: string)
    ensures HasUnknown(NewSeparationTracker(nameOne, nameTwo).entries)
    ensures NewSeparationTracker(nameOne, nameTwo).entries == NewSeparationTracker(nameTwo, nameOne).entries
  {
    assert nameOne in NewSeparationTracker(nameOne, nameTwo).entries;
  }
}
