/**
  The value store of the separation analysis: a map from string keys (variable
  names and register keys) to values, where the source's `double` NaN stands for
  "unknown". The four access paths of `std::unordered_map` that the source uses
  have different semantics and are modelled separately:
  - `SelectVariable` (find, then read): never changes the map, absent reads as unknown;
  - `EditVariable` (`operator[]` assignment): overwrites or creates one key;
  - `Subscript` (`operator[]` read): absent keys read as 0 and are inserted with 0;
  - `Insert` (`insert`): adds a key only when it is absent, never overwrites.
 */
module ValueStore {

  /** A tracked value: a known number or the "unknown" sentinel (NaN in the source). */
  datatype Val = Unknown | Known(n: int)

  datatype Option<T> = None | Some(value: T)

  /** The `variablesTracker` map of a ValueTracker. */
  type Vars = map<string, Val>

  /** `selectVariable`: the stored value if present, unknown otherwise; the map is not changed. */
  function SelectVariable(s: Vars, name: string): (v: Val)
    ensures name in s ==> v == s[name]
    ensures name !in s ==> v == Unknown
  {
    if name in s then s[name] else Unknown
  }

  /** `editVariable`: writes `name`, creating it if absent; every other key keeps its value. */
  function EditVariable(s: Vars, name: string, v: Val): (r: Vars)
    ensures r.Keys == s.Keys + {name}
    ensures r[name] == v
    ensures forall k :: k in s && k != name ==> r[k] == s[k]
  {
    s[name := v]
  }

  /**
    A read through `operator[]`: a present key yields its value and leaves the map
    alone; an absent key is value-initialised, so it reads as 0 and is inserted with 0.
   */
  function Subscript(s: Vars, name: string): (r: (Vars, Val))
    ensures r.0.Keys == s.Keys + {name}
    ensures name in r.0 && r.0[name] == r.1
    ensures forall k :: k in s ==> r.0[k] == s[k]
    ensures name !in s ==> r.1 == Known(0)
  {
    if name in s then (s, s[name]) else (s[name := Known(0)], Known(0))
  }

  /** `insert`: adds `name ↦ v` only when `name` is absent; an existing entry is never overwritten. */
  function Insert(s: Vars, name: string, v: Val): (r: Vars)
    ensures r.Keys == s.Keys + {name}
    ensures forall k :: k in s ==> r[k] == s[k]
    ensures name !in s ==> r[name] == v
  {
    if name in s then s else s[name := v]
  }

  /** Reading back a key after `editVariable` yields the written value; other keys read as before. */
  lemma SelectAfterEdit(s: Vars, name: string, v: Val, other: string)
    ensures SelectVariable(EditVariable(s, name, v), name) == v
    ensures other != name ==> SelectVariable(EditVariable(s, name, v), other) == SelectVariable(s, other)
  {
  }

  /**
    `insert` and `editVariable` differ exactly on a key that is already present with
    another value: `editVariable` replaces it, `insert` keeps the old value.
   */
  lemma InsertKeepsEditReplaces(s: Vars, name: string, v: Val)
    requires name in s
    ensures Insert(s, name, v) == s
    ensures EditVariable(s, name, v)[name] == v
    ensures s[name] != v ==> Insert(s, name, v) != EditVariable(s, name, v)
  {
    if s[name] != v {
      assert Insert(s, name, v)[name] != EditVariable(s, name, v)[name];
    }
  }

  /** A `Subscript` read of a present key agrees with `selectVariable` and changes nothing. */
  lemma SubscriptOfPresentIsSelect(s: Vars, name: string)
    requires name in s
    ensures Subscript(s, name) == (s, SelectVariable(s, name))
  {
  }
}
