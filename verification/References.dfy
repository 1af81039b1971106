/**
 Rewriting references to renamed objects inside a JSON tree. The code walks Go maps in an unspecified order and
 assigns into them; the specification maps every field at once.
 */
module References {
  import opened Basics

  datatype Json =
    | Null
    | Bool(flag: bool)
    | Number(value: int)
    | String(text: string)
    | Array(elements: seq<Json>)
    | Object(fields: map<string, Json>)

  function RenameKey(kind: string, namespace: string, name: string): string {
    kind + "/" + namespace + "/" + name
  }

  /** The kind a string field refers to, or "" when the field is not a recognised reference. */
  function ReferencedKind(key: string, parent: string): string {
    if key == "serviceAccountName" then "ServiceAccount"
    else if key == "serviceName" then "Service"
    else if key == "claimName" then "PersistentVolumeClaim"
    else if key == "secretName" then "Secret"
    else if key == "name" then
      if parent in {"configMap", "configMapRef"} then "ConfigMap"
      else if parent in {"secret", "secretRef"} then "Secret"
      else if parent == "service" then "Service"
      else if parent == "scaleTargetRef" then "Deployment"
      else ""
    else ""
  }

  /** What a string stored under `key` becomes. */
  function NewName(text: string, renames: map<string, string>, namespace: string, parent: string, key: string): string {
    var kind := ReferencedKind(key, parent);
    var renamed := Lookup(renames, RenameKey(kind, namespace, text));
    if kind != "" && renamed != "" then renamed else text
  }

  function RewriteField(child: Json, renames: map<string, string>, namespace: string, parent: string, key: string): Json
    decreases child, 1
  {
    if child.String? then String(NewName(child.text, renames, namespace, parent, key))
    else Rewrite(child, renames, namespace, key)
  }

  function Rewrite(v: Json, renames: map<string, string>, namespace: string, parent: string): Json
    decreases v, 0
  {
    match v
    case Object(fields) => Object(map key | key in fields :: RewriteField(fields[key], renames, namespace, parent, key))
    case Array(elements) =>
      Array(seq(|elements|, i requires 0 <= i < |elements| => Rewrite(elements[i], renames, namespace, parent)))
    case _ => v
  }

  /** rewriteValue: for every order in which the map delivers its keys the result is the specified tree. */
  method RewriteValue(v: Json, renames: map<string, string>, namespace: string, parent: string) returns (result: Json)
    ensures result == Rewrite(v, renames, namespace, parent)
    decreases v, 1
  {
    match v
    case Object(_) => result := RewriteObject(v, renames, namespace, parent);
    case Array(_) => result := RewriteArray(v, renames, namespace, parent);
    case _ => result := v;
  }

  method RewriteObject(v: Json, renames: map<string, string>, namespace: string, parent: string) returns (result: Json)
    requires v.Object?
    ensures result == Rewrite(v, renames, namespace, parent)
    decreases v, 0
  {
    var typed := v.fields;
    var todo := v.fields.Keys;
    while todo != {}
      invariant todo <= v.fields.Keys == typed.Keys
      invariant forall k :: k in todo ==> typed[k] == v.fields[k]
      invariant forall k :: k in v.fields && k !in todo ==>
        typed[k] == RewriteField(v.fields[k], renames, namespace, parent, k)
      decreases todo
    {
      var key :| key in todo;
      var child := typed[key];
      if child.String? {
        typed := typed[key := String(NewName(child.text, renames, namespace, parent, key))];
      } else {
        var rewritten := RewriteValue(child, renames, namespace, key);
        typed := typed[key := rewritten];
      }
      todo := todo - {key};
    }
    return Object(typed);
  }

  method RewriteArray(v: Json, renames: map<string, string>, namespace: string, parent: string) returns (result: Json)
    requires v.Array?
    ensures result == Rewrite(v, renames, namespace, parent)
    decreases v, 0
  {
    var typed := v.elements;
    var i := 0;
    while i < |v.elements|
      invariant 0 <= i <= |v.elements| == |typed|
      invariant forall k :: i <= k < |v.elements| ==> typed[k] == v.elements[k]
      invariant forall k :: 0 <= k < i ==> typed[k] == Rewrite(v.elements[k], renames, namespace, parent)
    {
      var rewritten := RewriteValue(typed[i], renames, namespace, parent);
      typed := typed[i := rewritten];
      i := i + 1;
    }
    return Array(typed);
  }

  // ---- what rewriting does at every place of the tree ----

  datatype Step = Key(key: string) | Index(index: nat)

  type JsonPath = seq<Step>

  datatype Found = Missing | Found(value: Json)

  function Child(v: Json, step: Step): Found {
    match (v, step)
    case (Object(fields), Key(k)) => if k in fields then Found(fields[k]) else Missing
    case (Array(elements), Index(i)) => if i < |elements| then Found(elements[i]) else Missing
    case _ => Missing
  }

  function At(v: Json, path: JsonPath): Found
    decreases |path|
  {
    if path == [] then Found(v)
    else
      match Child(v, path[0])
      case Missing => Missing
      case Found(child) => At(child, path[1..])
  }

  /** The nearest enclosing key: array indexes keep the key of the array. */
  function Context(path: JsonPath, parent: string): string
    decreases |path|
  {
    if path == [] then parent
    else Context(path[1..], if path[0].Key? then path[0].key else parent)
  }

  /** Is the place a string-valued field, as opposed to an array element or the root? */
  predicate IsField(path: JsonPath) {
    path != [] && path[|path| - 1].Key?
  }

  function RewrittenAt(w: Json, renames: map<string, string>, namespace: string, parent: string, path: JsonPath): Json {
    if w.String? then
      if IsField(path)
      then String(NewName(w.text, renames, namespace, Context(path[..|path| - 1], parent), path[|path| - 1].key))
      else w
    else Rewrite(w, renames, namespace, Context(path, parent))
  }

  lemma TailContext(path: JsonPath, parent: string)
    requires |path| > 1
    ensures path[1..][..|path| - 2] == path[..|path| - 1][1..]
    ensures Context(path[..|path| - 1], parent)
      == Context(path[1..][..|path| - 2], if path[0].Key? then path[0].key else parent)
  {
  }

  lemma RewriteKeyChild(fields: map<string, Json>, renames: map<string, string>, namespace: string, parent: string,
                        key: string)
    requires key in fields
    ensures Child(Rewrite(Object(fields), renames, namespace, parent), Key(key))
      == Found(RewriteField(fields[key], renames, namespace, parent, key))
  {
  }

  lemma RewriteIndexChild(elements: seq<Json>, renames: map<string, string>, namespace: string, parent: string, i: nat)
    requires i < |elements|
    ensures Child(Rewrite(Array(elements), renames, namespace, parent), Index(i))
      == Found(Rewrite(elements[i], renames, namespace, parent))
  {
  }

  /**
   Rewriting keeps every place of the tree and every value in it, except string fields, which get the name that
   the rename map has for the kind their key and enclosing key refer to.
   */
  lemma {:induction false} RewriteAt(v: Json, renames: map<string, string>, namespace: string, parent: string,
                                     path: JsonPath)
    ensures At(Rewrite(v, renames, namespace, parent), path) ==
      if At(v, path).Missing? then Missing
      else Found(RewrittenAt(At(v, path).value, renames, namespace, parent, path))
    decreases |path|
  {
    if path != [] && Child(v, path[0]).Found? {
      var child := Child(v, path[0]).value;
      var inner := if path[0].Key? then path[0].key else parent;
      var rest := path[1..];
      if |path| > 1 {
        TailContext(path, parent);
        RewriteAt(child, renames, namespace, inner, rest);
      } else {
        assert rest == [] && path[..0] == [] && path == [path[0]];
        assert Context(path, parent) == inner && Context(path[..0], parent) == parent;
        if path[0].Key? {
          RewriteKeyChild(v.fields, renames, namespace, parent, path[0].key);
        } else {
          RewriteIndexChild(v.elements, renames, namespace, parent, path[0].index);
        }
      }
    }
  }

  /** A recognised reference to a renamed object names the copy. */
  lemma RenamedReference(v: Json, renames: map<string, string>, namespace: string, path: JsonPath, key: string,
                         text: string)
    requires At(v, path + [Key(key)]) == Found(String(text))
    requires ReferencedKind(key, Context(path, "")) != ""
    requires Lookup(renames, RenameKey(ReferencedKind(key, Context(path, "")), namespace, text)) != ""
    ensures At(Rewrite(v, renames, namespace, ""), path + [Key(key)])
      == Found(String(Lookup(renames, RenameKey(ReferencedKind(key, Context(path, "")), namespace, text))))
  {
    RewriteAt(v, renames, namespace, "", path + [Key(key)]);
    assert (path + [Key(key)])[..|path|] == path;
  }

  /** The recorded copy of an object, or its own name. */
  function CopyOf(renames: map<string, string>, kind: string, namespace: string, text: string): string {
    var key := kind + "/" + namespace + "/" + text;
    if key in renames && renames[key] != "" then renames[key] else text
  }

  /** Which string fields are references, and to what; all others stay as they are. */
  lemma RecognisedFields(v: Json, renames: map<string, string>, namespace: string, path: JsonPath, key: string,
                         text: string)
    requires At(v, path + [Key(key)]) == Found(String(text))
    ensures var parent, got := Context(path, ""), At(Rewrite(v, renames, namespace, ""), path + [Key(key)]);
      && got.Found? && got.value.String?
      && (key == "serviceAccountName" ==> got.value.text == CopyOf(renames, "ServiceAccount", namespace, text))
      && (key == "serviceName" ==> got.value.text == CopyOf(renames, "Service", namespace, text))
      && (key == "claimName" ==> got.value.text == CopyOf(renames, "PersistentVolumeClaim", namespace, text))
      && (key == "secretName" ==> got.value.text == CopyOf(renames, "Secret", namespace, text))
      && (key == "name" && (parent == "configMap" || parent == "configMapRef") ==>
            got.value.text == CopyOf(renames, "ConfigMap", namespace, text))
      && (key == "name" && (parent == "secret" || parent == "secretRef") ==>
            got.value.text == CopyOf(renames, "Secret", namespace, text))
      && (key == "name" && parent == "service" ==> got.value.text == CopyOf(renames, "Service", namespace, text))
      && (key == "name" && parent == "scaleTargetRef" ==>
            got.value.text == CopyOf(renames, "Deployment", namespace, text))
      && (key !in {"serviceAccountName", "serviceName", "claimName", "secretName", "name"} ==> got.value.text == text)
      && (key == "name" && parent !in {"configMap", "configMapRef", "secret", "secretRef", "service", "scaleTargetRef"}
          ==> got.value.text == text)
  {
    RewriteAt(v, renames, namespace, "", path + [Key(key)]);
    assert (path + [Key(key)])[..|path|] == path;
  }

  lemma {:induction false} EmptyRenames(v: Json, namespace: string, parent: string)
    ensures Rewrite(v, map[], namespace, parent) == v
    decreases v
  {
    match v
    case Object(fields) =>
      forall k | k in fields ensures RewriteField(fields[k], map[], namespace, parent, k) == fields[k] {
        if !fields[k].String? {
          EmptyRenames(fields[k], namespace, k);
        }
      }
      assert (map key | key in fields :: RewriteField(fields[key], map[], namespace, parent, key)) == fields;
    case Array(elements) =>
      forall i | 0 <= i < |elements| ensures Rewrite(elements[i], map[], namespace, parent) == elements[i] {
        EmptyRenames(elements[i], namespace, parent);
      }
    case _ =>
  }
}
