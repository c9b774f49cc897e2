/** The inverted name index of people and organizations. */
module NameIndex {

  /** Foreign text functions: `normalize` is normalize_name, `split` is names_from. */
  datatype Names = Names(normalize: string -> string, split: string -> set<string>)

  /** A graph vertex that names can point to; absent fields are empty strings. `affiliations`
      holds the organization fields of a person. */
  datatype Entity = Entity(vid: string, names: seq<string>, aliases: seq<string>, affiliations: seq<string>)

  /** The keys one field contributes. */
  function FieldKeys(n: Names, e: Entity): seq<set<string>> {
    seq(|e.names| + |e.aliases|, i requires 0 <= i < |e.names| + |e.aliases| =>
      if i < |e.names| then {n.normalize(e.names[i])} else n.split(e.aliases[i - |e.names|]))
  }

  function Union(keys: seq<set<string>>): set<string> {
    if keys == [] then {} else Union(keys[..|keys| - 1]) + keys[|keys| - 1]
  }

  /** All non-empty keys of an entity. */
  function EntityKeys(n: Names, e: Entity): set<string> {
    Union(FieldKeys(n, e)) - {""}
  }

  /** A scan for the entities that bear a key, in catalogue order. */
  function Bearing(n: Names, rows: seq<Entity>, key: string): seq<Entity> {
    if rows == [] then []
    else
      var before, row := Bearing(n, rows[..|rows| - 1], key), rows[|rows| - 1];
      if key in EntityKeys(n, row) then before + [row] else before
  }

  type Index = map<string, seq<Entity>>

  function Lookup(index: Index, key: string): seq<Entity> {
    if key in index then index[key] else []
  }

  /** The index answers every lookup like a scan of the catalogue. */
  ghost predicate Indexes(n: Names, rows: seq<Entity>, index: Index) {
    forall key :: Lookup(index, key) == Bearing(n, rows, key)
  }

  /** Names that vouch for a vertex, by its VID. */
  type Evidence = map<string, set<string>>

  function EvidenceFor(evidence: Evidence, vid: string): set<string> {
    if vid in evidence then evidence[vid] else {}
  }

  method MakeIndex(n: Names, rows: seq<Entity>) returns (index: Index)
    ensures Indexes(n, rows, index)
  {
    index := map[];
    for i := 0 to |rows|
      invariant Indexes(n, rows[..i], index)
    {
      assert rows[..i + 1][..i] == rows[..i];
      index := AddRow(n, index, rows[i]);
    }
    assert rows[..|rows|] == rows;
  }

  /** Appends a row to every one of its keys, once even if several fields share a key. */
  method AddRow(n: Names, start: Index, row: Entity) returns (index: Index)
    ensures forall key :: Lookup(index, key) ==
              Lookup(start, key) + if key in EntityKeys(n, row) then [row] else []
  {
    hide FieldKeys, Union, Lookup;
    index := start;
    var fields := FieldKeys(n, row);
    var seen: set<string> := {};
    NoKeys();
    assert fields[..0] == [];
    for f := 0 to |fields|
      invariant seen == Union(fields[..f]) - {""}
      invariant forall key :: Lookup(index, key) == Lookup(start, key) + if key in seen then [row] else []
    {
      NextKeys(fields, f);
      index, seen := AddField(start, index, row, seen, fields[f]);
    }
    assert fields[..|fields|] == fields;
  }

  lemma NoKeys()
    ensures Union([]) == {}
  {
  }

  lemma NextKeys(keys: seq<set<string>>, i: nat)
    requires i < |keys|
    ensures Union(keys[..i + 1]) == Union(keys[..i]) + keys[i]
  {
    assert keys[..i + 1][..i] == keys[..i];
  }

  method AddField(start: Index, index0: Index, row: Entity, seen0: set<string>, keys: set<string>)
    returns (index: Index, seen: set<string>)
    requires forall key :: Lookup(index0, key) == Lookup(start, key) + if key in seen0 then [row] else []
    ensures seen == seen0 + (keys - {""})
    ensures forall key :: Lookup(index, key) == Lookup(start, key) + if key in seen then [row] else []
  {
    index, seen := index0, seen0;
    var left := keys;
    while left != {}
      invariant left <= keys && seen == seen0 + (keys - left - {""})
      invariant forall key :: Lookup(index, key) == Lookup(start, key) + if key in seen then [row] else []
      decreases left
    {
      var key :| key in left;
      left := left - {key};
      if key != "" && key !in seen {
        index := index[key := Lookup(index, key) + [row]];
        seen := seen + {key};
      }
    }
  }

  // ---------------------------------------------------------------------------
  // What bearing a key means
  // ---------------------------------------------------------------------------

  lemma {:induction false} UnionHas(keys: seq<set<string>>, key: string)
    ensures key in Union(keys) <==> exists i :: 0 <= i < |keys| && key in keys[i]
  {
    if keys != [] {
      UnionHas(keys[..|keys| - 1], key);
    }
  }

  lemma FieldsHave(n: Names, e: Entity, key: string)
    ensures key in EntityKeys(n, e) <==>
              key != "" && ((exists name | name in e.names :: n.normalize(name) == key)
                            || (exists alias | alias in e.aliases :: key in n.split(alias)))
  {
    var fields := FieldKeys(n, e);
    UnionHas(fields, key);
    if i :| 0 <= i < |fields| && key in fields[i] {
      if i < |e.names| {
        assert e.names[i] in e.names;
      } else {
        assert e.aliases[i - |e.names|] in e.aliases;
      }
    }
    if name :| name in e.names && n.normalize(name) == key {
      var i :| 0 <= i < |e.names| && e.names[i] == name;
      assert key in fields[i];
    }
    if alias :| alias in e.aliases && key in n.split(alias) {
      var i :| 0 <= i < |e.aliases| && e.aliases[i] == alias;
      assert key in fields[|e.names| + i];
    }
  }

  /** An entity bears a key iff the key is not empty and one of its names normalises to it or one of its
      aliases has it among its parts. */
  lemma {:induction false} BearingIff(n: Names, rows: seq<Entity>, key: string, e: Entity)
    ensures e in Bearing(n, rows, key) <==>
              e in rows && key != "" && ((exists name | name in e.names :: n.normalize(name) == key)
                                         || (exists alias | alias in e.aliases :: key in n.split(alias)))
  {
    hide EntityKeys;
    if rows != [] {
      BearingIff(n, rows[..|rows| - 1], key, e);
      assert rows == rows[..|rows| - 1] + [rows[|rows| - 1]];
      FieldsHave(n, e, key);
    }
  }

  /** The scan keeps catalogue order, and each row of the catalogue counts. */
  lemma {:induction false} BearingConcat(n: Names, a: seq<Entity>, b: seq<Entity>, key: string)
    ensures Bearing(n, a + b, key) == Bearing(n, a, key) + Bearing(n, b, key)
    ensures |b| == 1 ==> |Bearing(n, b, key)| <= 1
  {
    hide EntityKeys;
    if b == [] {
      assert a + b == a;
    } else {
      BearingConcat(n, a, b[..|b| - 1], key);
      assert (a + b)[..|a + b| - 1] == a + b[..|b| - 1];
      if |b| == 1 {
        assert b[..0] == [] && Bearing(n, b[..0], key) == [];
      }
    }
  }
}
