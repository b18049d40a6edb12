/** Clean-up of legacy AFU JSON in getAfuIfc (afu_platform_config.py): the
    list once called `module-arguments` is now `module-ports`, and the
    interface field once called `name` is now `class`. */
module LegacyKeys {
  import opened Json

  /** `d[to] = d.pop(from)` when `from` is present; otherwise `d` unchanged. */
  function RenameKey(d: Object, from: string, to: string): (r: Object)
    requires from != to
    ensures from !in r
    ensures to in r <==> to in d || from in d
    ensures from in d ==> r[to] == d[from]
    ensures from !in d ==> r == d
    ensures forall k :: k != from && k != to ==> (k in r <==> k in d)
    ensures forall k :: k in r && k != from && k != to ==> r[k] == d[k]
  {
    if from in d then (d - {from})[to := d[from]] else d
  }

  /** Both renames, `module-arguments` first. Afterwards no legacy key is
      left, a current key exists exactly when it or its legacy name did
      (the legacy value winning when both did), and every other key is
      untouched. */
  function CanonicalizeLegacyKeys(ifc: Object): (r: Object)
    ensures "module-arguments" !in r && "name" !in r
    ensures "module-ports" in r <==> "module-ports" in ifc || "module-arguments" in ifc
    ensures "class" in r <==> "class" in ifc || "name" in ifc
    ensures "module-arguments" in ifc ==> r["module-ports"] == ifc["module-arguments"]
    ensures "module-arguments" !in ifc && "module-ports" in ifc ==> r["module-ports"] == ifc["module-ports"]
    ensures "name" in ifc ==> r["class"] == ifc["name"]
    ensures "name" !in ifc && "class" in ifc ==> r["class"] == ifc["class"]
    ensures forall k :: k !in {"module-arguments", "module-ports", "name", "class"} ==>
      (k in r <==> k in ifc)
    ensures forall k :: k in r && k !in {"module-arguments", "module-ports", "name", "class"} ==>
      r[k] == ifc[k]
  {
    RenameKey(RenameKey(ifc, "module-arguments", "module-ports"), "name", "class")
  }

  /** Canonicalizing twice is canonicalizing once. */
  lemma CanonicalizeIdempotent(ifc: Object)
    ensures CanonicalizeLegacyKeys(CanonicalizeLegacyKeys(ifc)) == CanonicalizeLegacyKeys(ifc)
  {
  }

  /** A descriptor already in the current schema is left as it is. */
  lemma CurrentSchemaUnchanged(ifc: Object)
    requires "module-arguments" !in ifc && "name" !in ifc
    ensures CanonicalizeLegacyKeys(ifc) == ifc
  {
  }
}
