/**
 * Frames (src/runtime/frame.rs): one candidate solution, a map from
 * variable name to what the name is bound to. A Rust `Frame` is an owned
 * value that is cloned before every update, so `add` is modelled as
 * returning the updated frame.
 */
module Frames {
  import opened Wrappers
  import opened Json
  import opened Values

  /** What a frame records for a name; only `NonVariable` is ever inserted. */
  datatype ConstraintTarget = Variable(name: string) | NonVariable(value: Value)

  datatype Frame = Frame(constraints: map<string, ConstraintTarget>) {

    /** `Frame::new`: the frame with no entries. */
    static function New(): (f: Frame)
      ensures forall n :: f.Get(n) == None && !f.Contains(n)
      ensures f.Resolved()
    {
      Frame(map[])
    }

    /** `get`: the value bound to `name`; a `Variable` entry counts as unbound. */
    function Get(name: string): (r: Option<Value>)
      ensures r.Some? <==> name in constraints && constraints[name].NonVariable?
      ensures r.Some? ==> constraints[name] == NonVariable(r.value)
    {
      if name in constraints && constraints[name].NonVariable? then Some(constraints[name].value) else None
    }

    /** `contains`: the name has an entry of either kind. */
    predicate Contains(name: string)
      ensures Contains(name) <==> Get(name).Some? || (name in constraints && constraints[name].Variable?)
    {
      name in constraints
    }

    /** No entry is a `Variable` placeholder. */
    predicate Resolved() {
      forall n | n in constraints :: constraints[n].NonVariable?
    }

    /** `add`: binds `name` to `value`, replacing any earlier entry. */
    function Add(name: string, value: Value): (r: Frame)
      ensures r.Get(name) == Some(value) && r.Contains(name)
      ensures forall n :: n != name ==> r.Get(n) == Get(n) && r.Contains(n) == Contains(n)
      ensures Resolved() ==> r.Resolved()
    {
      Frame(constraints[name := NonVariable(value)])
    }

    /** `add_serde`: binds `name` to the hashed form of a JSON value. */
    function AddSerde(name: string, value: Json): (r: Frame)
      ensures r == Add(name, ToValue(NonVariableValue(value)))
      ensures r.Get(name).Some? && r.Get(name).value.GetSerdeValue() == value
    {
      Frame(constraints[name := NonVariable(ToValue(NonVariableValue(value)))])
    }

    /** `is_resolved`: scans the entries for a `Variable` placeholder. */
    method IsResolved() returns (b: bool)
      ensures b <==> Resolved()
    {
      var remaining := constraints.Keys;
      while remaining != {}
        invariant remaining <= constraints.Keys
        invariant forall n | n in constraints.Keys - remaining :: constraints[n].NonVariable?
        decreases remaining
      {
        var n :| n in remaining;
        if constraints[n].Variable? {
          return false;
        }
        remaining := remaining - {n};
      }
      return true;
    }

    /**
     * `to_serde_map`: a JSON object with one entry per bound name, holding the
     * bound JSON value; `Variable` entries are left out. The entry order is
     * the map's iteration order, which the model leaves open.
     */
    method ToSerdeMap() returns (j: Json)
      ensures j.Object? && DistinctKeys(j.fields)
      ensures forall n :: n in Keys(j.fields) <==> Get(n).Some?
      ensures forall i | 0 <= i < |j.fields| ::
        Get(j.fields[i].0).Some? && Get(j.fields[i].0).value.GetSerdeValue() == j.fields[i].1
    {
      var fields: seq<(string, Json)> := [];
      var remaining := constraints.Keys;
      while remaining != {}
        invariant remaining <= constraints.Keys
        invariant DistinctKeys(fields)
        invariant forall i | 0 <= i < |fields| ::
          fields[i].0 !in remaining && Get(fields[i].0).Some? &&
          Get(fields[i].0).value.GetSerdeValue() == fields[i].1
        invariant forall n :: n in Keys(fields) <==> n !in remaining && Get(n).Some?
        decreases remaining
      {
        var n :| n in remaining;
        if constraints[n].NonVariable? {
          ghost var before := fields;
          fields := fields + [(n, constraints[n].value.GetSerdeValue())];
          assert Keys(fields) == Keys(before) + [n];
        }
        remaining := remaining - {n};
      }
      j := Object(fields);
    }
  }

  /**
   * A frame updated in place: `let mut new_frame = frame.clone();` followed
   * by calls of `add` or `add_serde` on it.
   */
  class MutableFrame {
    var constraints: map<string, ConstraintTarget>

    /** `frame.clone()`. */
    constructor Clone(f: Frame)
      ensures Snapshot() == f
    {
      constraints := f.constraints;
    }

    /** The current contents as a frame value. */
    function Snapshot(): Frame
      reads this
    {
      Frame(constraints)
    }

    /** `add`, in place. */
    method Add(name: string, value: Value)
      modifies this
      ensures Snapshot() == old(Snapshot()).Add(name, value)
    {
      constraints := constraints[name := NonVariable(value)];
    }

    /** `add_serde`, in place. */
    method AddSerde(name: string, value: Json)
      modifies this
      ensures Snapshot() == old(Snapshot()).AddSerde(name, value)
    {
      constraints := constraints[name := NonVariable(ToValue(NonVariableValue(value)))];
    }
  }

  /** A `Variable` entry is present for `contains` yet unbound for `get`. */
  lemma VariableEntryIsUnbound(f: Frame, name: string, placeholder: string)
    requires name in f.constraints && f.constraints[name] == Variable(placeholder)
    ensures f.Contains(name) && f.Get(name) == None && !f.Resolved()
  {
  }

  /** The frame `New()` extended by `AddSerde(names[i], values[i])` in order. */
  function BuildFrame(names: seq<string>, values: seq<Json>): Frame
    requires |names| == |values|
  {
    if names == [] then Frame.New()
    else BuildFrame(names[..|names| - 1], values[..|values| - 1]).AddSerde(names[|names| - 1], values[|values| - 1])
  }

  /** Frames built from `New` by a series of `AddSerde` steps are resolved. */
  lemma {:induction false} BuiltFramesResolved(names: seq<string>, values: seq<Json>)
    requires |names| == |values|
    ensures BuildFrame(names, values).Resolved()
    decreases |names|
  {
    if names != [] {
      BuiltFramesResolved(names[..|names| - 1], values[..|values| - 1]);
    }
  }
}
