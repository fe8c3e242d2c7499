/** Reading the events of the gateway, as both interceptors do. */
module Envelope {
  import opened Wrappers
  import opened Json

  const TOOLS_CALL := "tools/call"

  /** `o.get(key, default)`; none when `o` is not a dict, which raises. */
  function Field(o: Json, key: string, default: Json): Option<Json> {
    if o.Obj? then Some(Get(o.entries, key, default)) else None
  }

  /** `(o.get(key, {}) or {})` */
  function Section(o: Json, key: string): Option<Json> {
    if o.Obj? then Some(OrEmpty(Get(o.entries, key, Obj([])))) else None
  }

  // ----- paths ----------------------------------------------------------------------------

  /** `leaf` lies at the end of the path, which leads through dicts. */
  predicate LeadsTo(v: Json, path: seq<string>, leaf: Json)
    decreases |path|
  {
    if path == [] then v == leaf
    else v.Obj? && HasKey(v.entries, path[0]) && LeadsTo(Get(v.entries, path[0], Null), path[1..], leaf)
  }

  /** Something with content on the path is not a dict. */
  predicate Breaks(v: Json, path: seq<string>)
    decreases |path|
  {
    || !v.Obj?
    || (path != [] && HasKey(v.entries, path[0]) && Truthy(Get(v.entries, path[0], Null))
        && Breaks(Get(v.entries, path[0], Null), path[1..]))
  }

  lemma SectionIsAStep(o: Json, key: string, rest: seq<string>, leaf: Json)
    requires rest != []
    ensures LeadsTo(o, [key] + rest, leaf) <==> Section(o, key).Some? && LeadsTo(Section(o, key).value, rest, leaf)
  {
    hide Get;
    assert ([key] + rest)[1..] == rest;
    if o.Obj? {
      DefaultIsForAbsentKeys(o.entries, key, Obj([]), Null);
    }
  }

  lemma SectionIsTheLastStep(o: Json, key: string, entries: seq<Entry>)
    requires entries != []
    ensures LeadsTo(o, [key], Obj(entries)) <==> Section(o, key) == Some(Obj(entries))
  {
    hide Get;
    assert [key][1..] == [];
    if o.Obj? {
      DefaultIsForAbsentKeys(o.entries, key, Obj([]), Null);
    }
  }

  lemma FieldIsTheLastStep(o: Json, key: string, leaf: Json, default: Json)
    ensures LeadsTo(o, [key], leaf) ==> Field(o, key, default) == Some(leaf)
    ensures Field(o, key, default) == Some(leaf) && leaf != default ==> LeadsTo(o, [key], leaf)
  {
    hide Get;
    assert [key][1..] == [];
    if o.Obj? {
      DefaultIsForAbsentKeys(o.entries, key, default, Null);
      assert LeadsTo(Get(o.entries, key, Null), [], leaf) <==> Get(o.entries, key, Null) == leaf;
    }
  }

  lemma SectionBreaks(o: Json, key: string, rest: seq<string>)
    ensures Breaks(o, [key] + rest) <==> Section(o, key).None? || Breaks(Section(o, key).value, rest)
  {
    hide Get;
    assert ([key] + rest)[1..] == rest;
    if o.Obj? {
      DefaultIsForAbsentKeys(o.entries, key, Obj([]), Null);
    }
  }
}
