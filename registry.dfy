/**
 * The model registry: a process-wide, append-only table of (type name,
 * prototype model) pairs. Every registry object is a handle on the same
 * static storage; registering a model grows the storage by copying the old
 * entries into arrays one longer and appending the new pair, and `alloc`
 * hands out a copy of the first prototype whose type name matches.
 *
 * The static members are the fields of `Table`; each `Registry` object holds
 * the one `Table` it shares with all others.
 */
module ModelRegistry {
  import opened Tools

  /** A prototype model, as far as the registry is concerned: its type name and its parameter values. */
  datatype Model = Model(typeName: string, parameters: seq<real>)

  /** The outcome of `name(index)` with range checking compiled in. */
  datatype NameResult =
    | Found(name: string)
    | OutOfRange(origin: string, index: int, min: int, max: int)

  /**
   * Position of the first name equal to `name`: None when there is none,
   * otherwise an index holding `name` with no earlier occurrence.
   */
  function FirstIndex(names: seq<string>, name: string): (r: Option<nat>)
    ensures r.None? <==> name !in names
    ensures r.Some? ==> r.value < |names| && names[r.value] == name
    ensures r.Some? ==> forall k :: 0 <= k < r.value ==> names[k] != name
    decreases |names|
  {
    if names == [] then None
    else if names[0] == name then Some(0)
    else
      var rest := FirstIndex(names[1..], name);
      assert names == [names[0]] + names[1..];
      if rest.None? then None else Some(rest.value + 1)
  }

  /** The first occurrence is unique: any index holding `name` with no earlier occurrence is the one found. */
  lemma FirstIndexUnique(names: seq<string>, name: string, i: int)
    requires 0 <= i < |names| && names[i] == name
    requires forall k :: 0 <= k < i ==> names[k] != name
    ensures FirstIndex(names, name) == Some(i)
  {
  }

  /**
   * Registering a second model under a type name that is already present
   * does not change which entry is found; a new name is found at the end.
   */
  lemma FirstIndexAppend(names: seq<string>, n: string, name: string)
    ensures FirstIndex(names + [n], name) ==
      if name in names then FirstIndex(names, name)
      else if n == name then Some(|names|)
      else None
  {
    var all := names + [n];
    if name in names {
      var i := FirstIndex(names, name).value;
      assert all[i] == name;
      FirstIndexUnique(all, name, i);
    } else if n == name {
      assert all[|names|] == name;
      FirstIndexUnique(all, name, |names|);
    } else {
      assert name !in all;
    }
  }

  /** The static storage shared by every registry object. */
  class Table {
    var number: nat
    var names: array?<string>
    var models: array?<Model>

    /** Null arrays hold nothing; otherwise both arrays hold exactly `number` entries. */
    ghost predicate Valid()
      reads this
    {
      && (names == null <==> models == null)
      && (names == null ==> number == 0)
      && (names != null ==> names.Length == number && models.Length == number)
    }

    /** The registered type names, in registration order. */
    function Names(): (s: seq<string>)
      reads this, names
      requires Valid()
      ensures |s| == number
    {
      if names == null then [] else names[..]
    }

    /** The registered prototypes, in registration order. */
    function Models(): (s: seq<Model>)
      reads this, models
      requires Valid()
      ensures |s| == number
    {
      if models == null then [] else models[..]
    }

    /** The static initialisers: no models, no arrays. */
    constructor ()
      ensures Valid() && number == 0 && Names() == [] && Models() == []
    {
      number := 0;
      names := null;
      models := null;
    }
  }

  /** A registry object: a handle on the shared table. */
  class Registry {
    const table: Table

    /** The void constructor: touches nothing. */
    constructor (table: Table)
      ensures this.table == table
    {
      this.table := table;
    }

    /**
     * The registering constructor: the table grows by one entry holding the
     * model's type name and the model; every earlier entry stays in place.
     */
    constructor Register(table: Table, model: Model)
      requires table.Valid()
      modifies table
      ensures this.table == table && table.Valid()
      ensures table.number == old(table.number) + 1
      ensures table.Names() == old(table.Names()) + [model.typeName]
      ensures table.Models() == old(table.Models()) + [model]
    {
      this.table := table;
      new;
      var n := table.number;
      var newNames := new string[n + 1];
      var newModels := new Model[n + 1](_ => model);
      var i := 0;
      while i < n
        invariant 0 <= i <= n
        invariant table.Valid() && table.number == n
        invariant table.names == old(table.names) && table.models == old(table.models)
        invariant forall k :: 0 <= k < i ==> newNames[k] == table.Names()[k] && newModels[k] == table.Models()[k]
        modifies newNames, newModels
      {
        newNames[i] := table.names[i];
        newModels[i] := table.models[i];
        i := i + 1;
      }
      newNames[n] := model.typeName;
      newModels[n] := model;
      table.names := newNames;
      table.models := newModels;
      table.number := n + 1;
      assert table.Names() == old(table.Names()) + [model.typeName];
      assert table.Models() == old(table.Models()) + [model];
    }

    /** The copy constructor: shares the same table and leaves it as it is. */
    constructor Copy(other: Registry)
      ensures table == other.table
    {
      table := other.table;
    }

    /** Assignment: nothing to copy, since every registry shares the table. */
    method Assign(other: Registry)
      ensures unchanged(table)
    {
    }

    /** The number of registered models. */
    function Size(): (n: nat)
      reads this, table
      requires table.Valid()
      ensures n == |table.Names()|
    {
      table.number
    }

    /**
     * `alloc(type)`: a copy of the prototype at the first entry whose name is
     * `type`, or None (the null pointer) when no entry has that name.
     */
    method Alloc(typeName: string) returns (m: Option<Model>)
      requires table.Valid()
      ensures FirstIndex(table.Names(), typeName).None? ==> m.None?
      ensures FirstIndex(table.Names(), typeName).Some? ==>
        m == Some(table.Models()[FirstIndex(table.Names(), typeName).value])
    {
      m := None;
      var i := 0;
      while i < table.number
        invariant 0 <= i <= table.number
        invariant forall k :: 0 <= k < i ==> table.Names()[k] != typeName
      {
        if table.names[i] == typeName {
          FirstIndexUnique(table.Names(), typeName, i);
          m := Some(table.models[i]);
          break;
        }
        i := i + 1;
      }
      if m.None? {
        assert typeName !in table.Names();
      }
    }

    /**
     * `name(index)` with range checking: the name at `index` when it lies in
     * [0, size()-1], an out-of-range error naming the index and the bounds otherwise.
     */
    function Name(index: int): (r: NameResult)
      reads this, table, table.names
      requires table.Valid()
      ensures r.Found? <==> 0 <= index < table.number
      ensures r.Found? ==> r.name == table.Names()[index]
      ensures r.OutOfRange? ==> r == OutOfRange("GModelRegistry::name(int&)", index, 0, table.number - 1)
    {
      if index < 0 || index >= table.number then OutOfRange("GModelRegistry::name(int&)", index, 0, table.number - 1)
      else Found(table.names[index])
    }
  }

  /**
   * Alloc after registration: registering a model under a type name that is
   * already present leaves what a lookup of that name returns unchanged, and
   * a new type name becomes allocatable.
   */
  lemma LaterDuplicateNeverFound(names: seq<string>, models: seq<Model>, model: Model, name: string)
    requires |names| == |models|
    ensures var ns, ms := names + [model.typeName], models + [model];
      && (name in names ==> FirstIndex(ns, name).Some? && ms[FirstIndex(ns, name).value] == models[FirstIndex(names, name).value])
      && (name !in names && model.typeName == name ==> FirstIndex(ns, name).Some? && ms[FirstIndex(ns, name).value] == model)
      && (name !in names && model.typeName != name ==> FirstIndex(ns, name).None?)
  {
    FirstIndexAppend(names, model.typeName, name);
  }
}
