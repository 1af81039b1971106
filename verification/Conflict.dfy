/** What to do when a restore target already exists. */
module Conflict {
  import opened Basics

  datatype Policy = Policy(default: string, perResource: map<string, string>, allowRecreate: bool,
    highRiskConfirmed: bool)

  datatype Action = Create | Skip | Overwrite | Rename

  datatype Resolution = Resolved(action: Action) | Blocked

  /** The resource name without its API group. */
  function Short(gvr: string): string {
    if gvr == "" || gvr[0] == '.' then "" else [gvr[0]] + Short(gvr[1..])
  }

  function PolicyFor(p: Policy, gvr: string): string {
    if Lookup(p.perResource, gvr) != "" then Lookup(p.perResource, gvr)
    else if Lookup(p.perResource, Short(gvr)) != "" then Lookup(p.perResource, Short(gvr))
    else if p.default == "" then "Skip"
    else p.default
  }

  predicate RenameSupported(kind: string) {
    kind in {"ConfigMap", "Secret", "ServiceAccount", "Service", "Deployment", "StatefulSet", "DaemonSet", "Job",
      "CronJob", "Ingress", "Role", "RoleBinding"}
  }

  predicate RecreateSupported(kind: string) {
    kind in {"Service", "Deployment", "StatefulSet", "DaemonSet", "Job", "CronJob", "Ingress",
      "HorizontalPodAutoscaler", "PodDisruptionBudget", "NetworkPolicy", "Role", "RoleBinding", "ConfigMap"}
  }

  function Resolve(p: Policy, gvr: string, kind: string, exists_: bool): Resolution {
    if !exists_ then Resolved(Create)
    else
      var policy := PolicyFor(p, gvr);
      if policy == "Skip" then Resolved(Skip)
      else if policy == "Overwrite" then Resolved(Overwrite)
      else if policy == "Rename" && RenameSupported(kind) then Resolved(Rename)
      else Blocked
  }

  // ---- whose policy decides ----

  /** `name` is what stands before the first dot. */
  ghost predicate IsShort(gvr: string, name: string) {
    name <= gvr && '.' !in name && (name == gvr || gvr[|name|] == '.')
  }

  lemma {:induction false} ShortFacts(gvr: string, name: string)
    ensures IsShort(gvr, name) <==> name == Short(gvr)
  {
    if gvr != "" && gvr[0] != '.' {
      var rest, s := gvr[1..], Short(gvr[1..]);
      ShortFacts(rest, s);
      assert [gvr[0]] + rest == gvr;
      assert IsShort(gvr, [gvr[0]] + s);
      if IsShort(gvr, name) {
        assert name != "";
        assert name[0] == gvr[0] && name == [name[0]] + name[1..];
        ShortFacts(rest, name[1..]);
      }
    }
  }

  ghost predicate HasEntry(p: Policy, key: string, word: string) {
    word != "" && key in p.perResource && p.perResource[key] == word
  }

  ghost predicate NoEntry(p: Policy, key: string) {
    key in p.perResource ==> p.perResource[key] == ""
  }

  /** An entry for the resource decides, else one for its short name, else the default, and no default means Skip. */
  ghost predicate Decides(p: Policy, gvr: string, word: string) {
    || HasEntry(p, gvr, word)
    || (NoEntry(p, gvr) && exists name :: IsShort(gvr, name) && HasEntry(p, name, word))
    || (&& NoEntry(p, gvr) && (forall name :: IsShort(gvr, name) ==> NoEntry(p, name))
        && word == if p.default == "" then "Skip" else p.default)
  }

  lemma DecidesIff(p: Policy, gvr: string, word: string)
    ensures Decides(p, gvr, word) <==> word == PolicyFor(p, gvr)
  {
    ShortFacts(gvr, Short(gvr));
    forall name ensures IsShort(gvr, name) <==> name == Short(gvr) {
      ShortFacts(gvr, name);
    }
  }
}
