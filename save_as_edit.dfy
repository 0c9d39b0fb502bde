/** Editing the `saveAs` mark of one node of a response-validation tree: the
    tree's document is updated through `setNestedProperty` and the registry is
    told about the rename at once, so that other inputs can offer the new name
    before the dialog is saved. */
module SaveAsEdit {
  import opened Wrappers
  import opened Text
  import opened JsonValue
  import opened PathTree
  import opened Registry

  /** `path.split('.').pop()`: the key of the edited node. */
  function FieldKey(path: string): (k: string)
    ensures '.' !in k
  {
    var keys := Split(path, '.');
    keys[|keys| - 1]
  }

  /** `saveAs || undefined`: an empty mark deletes the member. */
  function SaveAsValue(saveAs: string): (v: Option<string>)
    ensures v.None? <==> saveAs == ""
    ensures v.Some? ==> v.value == saveAs
  {
    if saveAs == "" then None else Some(saveAs)
  }

  /** The document of one json-tree parameter, held (as parsed JSON) in the
      hidden input named `treeName`. */
  class JsonTreeField {
    const treeName: string
    var data: Json

    constructor (treeName: string, data: Json)
      ensures this.treeName == treeName && this.data == data
    {
      this.treeName := treeName;
      this.data := data;
    }

    /** `updateJsonTreeSaveAs(treeName, path, saveAs)`: read the old mark, write
        the new one, then sync the registry. When the write throws, the catch
        leaves both the document and the registry as they were. */
    method UpdateSaveAs(registry: VariableRegistry, path: string, saveAs: string)
      modifies this, registry
      ensures var keys := Split(path, '.');
              var written := WithProperty(old(data), keys, "saveAs", SaveAsValue(saveAs));
              if written.None? then
                data == old(data) && registry.variables == old(registry.variables)
              else
                && data == written.value
                && registry.variables
                   == SyncedVariables(old(registry.variables), GetNestedProperty(old(data), keys, "saveAs"),
                                      saveAs, treeName, FieldKey(path))
    {
      var keys := Split(path, '.');
      var fieldKey := keys[|keys| - 1];
      assert fieldKey == FieldKey(path);
      var oldSaveAs := GetNestedProperty(data, keys, "saveAs");
      var written := SetNestedProperty(data, keys, "saveAs", SaveAsValue(saveAs));
      if written.None? {
        return;
      }
      ghost var before := registry.variables;
      data := written.value;
      registry.SyncSaveAsVariable(oldSaveAs, saveAs, treeName, fieldKey);
      assert registry.variables == SyncedVariables(before, oldSaveAs, saveAs, treeName, fieldKey);
    }
  }

  /** Editing the mark of an existing object node: the document reads back the
      new mark (none for an empty one), every node beside the path is
      untouched, and a non-blank new mark is in the registry while the one it
      replaces (when different) is gone. */
  lemma {:induction false} SaveAsEditEffect(data: Json, vs: seq<Var>, treeName: string, path: string, saveAs: string,
                                            q: seq<string>)
    requires var keys := Split(path, '.');
             NodeAt(data, keys).Some? && NodeAt(data, keys).value.JObject?
    ensures var keys := Split(path, '.');
            var written := WithProperty(data, keys, "saveAs", SaveAsValue(saveAs));
            var oldName := GetNestedProperty(data, keys, "saveAs");
            var after := SyncedVariables(vs, oldName, saveAs, treeName, FieldKey(path));
            && written.Some?
            && GetNestedProperty(written.value, keys, "saveAs") == (if saveAs == "" then None else Some(JString(saveAs)))
            && (Diverges(q, keys) ==> NodeAt(written.value, q) == NodeAt(data, q))
            && (!Blank(saveAs) ==> HasName(after, saveAs))
            && (oldName.Some? && oldName.value.JString? && oldName.value.s != [] && oldName.value.s != saveAs ==>
                  forall i :: 0 <= i < |after| ==> after[i].name != oldName.value.s)
  {
    var keys := Split(path, '.');
    PropertyRoundTrip(data, keys, "saveAs", SaveAsValue(saveAs));
    if Diverges(q, keys) {
      PropertySiblings(data, keys, "saveAs", SaveAsValue(saveAs), q);
    }
  }
}
