/** Merging an AFU's own `module-ports` list into the generic AFU interface
    it names (afu_platform_config.py, injectAfuIfcChanges). */
module IfcMerge {
  import opened Wrappers
  import opened Json

  /** The base interface's ports: class name to the port's JSON fields. */
  type PortTable = map<string, Object>

  /** Fields an AFU may change on a port class the base interface already
      defines (legal_afu_ifc_update_classes). */
  const OverridableFields: set<string> :=
    {"default-entries", "max-entries", "min-entries", "optional", "params"}

  datatype MergeError =
    | ModulePortsNotList
    | PortNotObject
    | MissingClass
    | ClassNotString
    | MissingInterface(cls: string)
    | UnauthorizedOverride(cls: string)

  /** The class an entry of the list names, when it is an object with a
      string `class`. */
  function EntryClass(entry: JVal): Option<string>
  {
    if entry.JObj? && "class" in entry.fields && entry.fields["class"].JStr?
    then Some(entry.fields["class"].s)
    else None
  }

  /** A field an override entry may carry: `class` itself or an allowed field. */
  predicate MayOverride(field: string)
  {
    field == "class" || field in OverridableFields
  }

  /** The fields of `base` with every field of `upd` other than `class`
      written over them. */
  function Override(base: Object, upd: Object): (r: Object)
    ensures r.Keys == base.Keys + (upd.Keys - {"class"})
    ensures forall k :: k in upd && k != "class" ==> r[k] == upd[k]
    ensures forall k :: k in base && (k !in upd || k == "class") ==> r[k] == base[k]
  {
    map k | k in base.Keys + (upd.Keys - {"class"}) ::
      if k in upd && k != "class" then upd[k] else base[k]
  }

  /** One entry of `module-ports`: a new class is added verbatim and must
      name an `interface`; a known class may only change allowed fields.
      Every other class is left exactly as it was. */
  function ApplyEntry(t: PortTable, entry: JVal): (r: Result<PortTable, MergeError>)
    ensures r.Success? <==>
      && EntryClass(entry).Some?
      && var c := EntryClass(entry).value;
         if c in t then forall k :: k in entry.fields ==> MayOverride(k)
         else "interface" in entry.fields
    ensures r.Success? ==>
      && var c := EntryClass(entry).value;
      && r.value.Keys == t.Keys + {c}
      && (forall d :: d in t && d != c ==> r.value[d] == t[d])
      && r.value[c] == (if c in t then Override(t[c], entry.fields) else entry.fields)
    ensures !entry.JObj? ==> r == Failure(PortNotObject)
    ensures entry.JObj? && "class" !in entry.fields ==> r == Failure(MissingClass)
    ensures entry.JObj? && "class" in entry.fields && !entry.fields["class"].JStr? ==>
      r == Failure(ClassNotString)
    ensures EntryClass(entry).Some? && EntryClass(entry).value !in t && "interface" !in entry.fields ==>
      r == Failure(MissingInterface(EntryClass(entry).value))
    ensures EntryClass(entry).Some? && EntryClass(entry).value in t ==>
      (r.Failure? <==> r == Failure(UnauthorizedOverride(EntryClass(entry).value)))
  {
    if !entry.JObj? then Failure(PortNotObject)
    else if "class" !in entry.fields then Failure(MissingClass)
    else if !entry.fields["class"].JStr? then Failure(ClassNotString)
    else
      var c := entry.fields["class"].s;
      if c !in t then
        if "interface" !in entry.fields then Failure(MissingInterface(c))
        else Success(t[c := entry.fields])
      else if exists k :: k in entry.fields && !MayOverride(k) then
        Failure(UnauthorizedOverride(c))
      else
        Success(t[c := Override(t[c], entry.fields)])
  }

  /** The classes the entries name. */
  function Classes(entries: seq<JVal>): set<string>
    decreases |entries|
  {
    if |entries| == 0 then {}
    else
      (if EntryClass(entries[0]).Some? then {EntryClass(entries[0]).value} else {})
      + Classes(entries[1..])
  }

  /** The entries in list order; the first bad entry stops the merge. On
      success the table gains exactly the classes the entries name and the
      classes they do not name are untouched. */
  function ApplyEntries(t: PortTable, entries: seq<JVal>): (r: Result<PortTable, MergeError>)
    ensures r.Success? ==> r.value.Keys == t.Keys + Classes(entries)
    ensures r.Success? ==> forall d :: d in t && d !in Classes(entries) ==> r.value[d] == t[d]
    decreases |entries|
  {
    if |entries| == 0 then Success(t)
    else
      var t1 :- ApplyEntry(t, entries[0]);
      ApplyEntries(t1, entries[1..])
  }

  /** injectAfuIfcChanges: a request without `module-ports` leaves the base
      as it is; a `module-ports` that is not a list is refused. */
  function InjectAfuIfcChanges(base: PortTable, req: Object): (r: Result<PortTable, MergeError>)
    ensures "module-ports" !in req ==> r == Success(base)
    ensures "module-ports" in req && !req["module-ports"].JArr? ==> r == Failure(ModulePortsNotList)
    ensures r.Success? && "module-ports" in req ==>
      r.value.Keys == base.Keys + Classes(req["module-ports"].items)
    ensures r.Success? ==> base.Keys <= r.value.Keys
    ensures r.Success? && "module-ports" in req ==>
      forall d :: d in base && d !in Classes(req["module-ports"].items) ==> r.value[d] == base[d]
    ensures "module-ports" in req && req["module-ports"].JArr? ==>
      r == ApplyEntries(base, req["module-ports"].items)
  {
    if "module-ports" !in req then Success(base)
    else if !req["module-ports"].JArr? then Failure(ModulePortsNotList)
    else ApplyEntries(base, req["module-ports"].items)
  }

  /** Merging `a + b` is merging `a`, then merging `b` into the result. */
  lemma {:induction false} ApplyEntriesAppend(t: PortTable, a: seq<JVal>, b: seq<JVal>)
    ensures ApplyEntries(t, a + b) ==
      match ApplyEntries(t, a)
      case Failure(e) => Failure(e)
      case Success(t1) => ApplyEntries(t1, b)
    decreases |a|
  {
    if |a| == 0 {
      assert a + b == b;
    } else {
      assert (a + b)[0] == a[0];
      assert (a + b)[1..] == a[1..] + b;
      match ApplyEntry(t, a[0])
      case Failure(_) =>
      case Success(t1) => ApplyEntriesAppend(t1, a[1..], b);
    }
  }

  /** An allowed field on a known class replaces that one field of that one
      port; every other field and every other port stays as it was. */
  lemma OverrideOneField(t: PortTable, c: string, k: string, v: JVal)
    requires c in t && k in OverridableFields
    ensures ApplyEntry(t, JObj(map["class" := JStr(c), k := v])) == Success(t[c := t[c][k := v]])
  {
    var fields := map["class" := JStr(c), k := v];
    assert EntryClass(JObj(fields)) == Some(c);
    assert Override(t[c], fields) == t[c][k := v];
  }

  /** A one-entry list merges as that entry alone. */
  lemma ApplySingle(t: PortTable, e: JVal)
    ensures ApplyEntries(t, [e]) == ApplyEntry(t, e)
  {
    assert [e][1..] == [];
  }

  /** A two-entry list merges the second entry into the table the first
      one produced. */
  lemma ApplyPair(t: PortTable, e1: JVal, e2: JVal)
    requires ApplyEntry(t, e1).Success?
    ensures ApplyEntries(t, [e1, e2]) == ApplyEntries(ApplyEntry(t, e1).value, [e2])
  {
    assert [e1, e2][1..] == [e2];
  }

  /** Setting field `k` of port `c` twice keeps only the second value. */
  lemma SetFieldTwice(t: PortTable, c: string, k: string, v1: JVal, v2: JVal)
    requires c in t
    ensures var t1 := t[c := t[c][k := v1]];
      t1[c := t1[c][k := v2]] == t[c := t[c][k := v2]]
  {
    var t1 := t[c := t[c][k := v1]];
    assert t1[c][k := v2] == t[c][k := v2];
  }

  /** Repeated overrides of one field apply in list order: the last wins. */
  lemma {:induction false} LastOverrideWins(t: PortTable, c: string, k: string, v1: JVal, v2: JVal)
    requires c in t && k in OverridableFields
    ensures ApplyEntries(t, [JObj(map["class" := JStr(c), k := v1]), JObj(map["class" := JStr(c), k := v2])])
         == Success(t[c := t[c][k := v2]])
  {
    var e1 := JObj(map["class" := JStr(c), k := v1]);
    var e2 := JObj(map["class" := JStr(c), k := v2]);
    var t1 := t[c := t[c][k := v1]];
    OverrideOneField(t, c, k, v1);
    ApplyPair(t, e1, e2);
    OverrideOneField(t1, c, k, v2);
    ApplySingle(t1, e2);
    SetFieldTwice(t, c, k, v1, v2);
  }

  /** A field outside the allowed set on a known class refuses the whole
      merge, wherever the entry sits in the list and whatever follows it. */
  lemma UnauthorizedFieldRefuses(t: PortTable, pre: seq<JVal>, entry: JVal, post: seq<JVal>, field: string)
    requires ApplyEntries(t, pre).Success?
    requires EntryClass(entry).Some? && EntryClass(entry).value in ApplyEntries(t, pre).value
    requires field in entry.fields && !MayOverride(field)
    ensures ApplyEntries(t, pre + [entry] + post) == Failure(UnauthorizedOverride(EntryClass(entry).value))
  {
    var t1 := ApplyEntries(t, pre).value;
    ApplyEntriesAppend(t, pre, [entry] + post);
    assert pre + [entry] + post == pre + ([entry] + post);
    assert ([entry] + post)[0] == entry;
  }

  /** A class added earlier in the list counts as known for later entries:
      a second entry for it that repeats `interface` is refused. */
  lemma AddedClassIsKnown(t: PortTable, c: string, i: JVal)
    requires c !in t
    ensures ApplyEntries(t, [JObj(map["class" := JStr(c), "interface" := i]),
                             JObj(map["class" := JStr(c), "interface" := i])])
         == Failure(UnauthorizedOverride(c))
  {
  }

  /** An entry for a class not yet in the table that names an `interface`
      adds that class verbatim. */
  lemma NewClassAdded(t: PortTable, e: JVal)
    requires EntryClass(e).Some? && EntryClass(e).value !in t
    requires "interface" in e.fields
    ensures ApplyEntry(t, e) == Success(t[EntryClass(e).value := e.fields])
  {
  }

  /** Updates of two different keys commute. */
  lemma UpdatesCommute<K, V>(m: map<K, V>, k1: K, v1: V, k2: K, v2: V)
    requires k1 != k2
    ensures m[k1 := v1][k2 := v2] == m[k2 := v2][k1 := v1]
  {
  }

  /** Extensions that add two different new classes commute. */
  lemma ExtensionsCommute(t: PortTable, e1: JVal, e2: JVal)
    requires EntryClass(e1).Some? && EntryClass(e2).Some?
    requires EntryClass(e1).value !in t && EntryClass(e2).value !in t
    requires EntryClass(e1).value != EntryClass(e2).value
    requires "interface" in e1.fields && "interface" in e2.fields
    ensures ApplyEntries(t, [e1, e2]) == ApplyEntries(t, [e2, e1])
    ensures ApplyEntries(t, [e1, e2]).Success?
  {
    var c1 := EntryClass(e1).value;
    var c2 := EntryClass(e2).value;
    var t1 := t[c1 := e1.fields];
    var t2 := t[c2 := e2.fields];
    NewClassAdded(t, e1);
    NewClassAdded(t, e2);
    NewClassAdded(t1, e2);
    NewClassAdded(t2, e1);
    ApplyPair(t, e1, e2);
    ApplyPair(t, e2, e1);
    ApplySingle(t1, e2);
    ApplySingle(t2, e1);
    UpdatesCommute(t, c1, e1.fields, c2, e2.fields);
  }
}
