/**
 * Repository enumeration: the decoded answer of the repository
 * configuration endpoint is an object with one list of repositories per
 * repository class. Only the LOCAL and FEDERATED lists are read, LOCAL
 * first, and each entry is turned into `{key, class}`.
 */
module Repositories {
  import opened Values

  /** `{"key": repo["key"], "class": repo["rclass"]}`. */
  datatype Repository = Repository(key: Json, rclass: Json)

  /** The classes read, in the order they are read. */
  const Classes: seq<string> := ["LOCAL", "FEDERATED"]

  /** An entry that `repo["key"]` and `repo["rclass"]` can be read from. */
  predicate IsRepoEntry(item: Json)
  {
    item.JObj? && "key" in item.fields && "rclass" in item.fields
  }

  /**
   * The repositories of a list of entries, in list order; Crashed when some
   * entry is not an object holding both `key` and `rclass` (the KeyError or
   * TypeError that `repo["key"]` raises).
   */
  function Entries(items: seq<Json>): (r: Outcome<seq<Repository>>)
    ensures r.Done? <==> forall i :: 0 <= i < |items| ==> IsRepoEntry(items[i])
    ensures r.Done? ==> |r.value| == |items|
    ensures r.Done? ==> forall i :: 0 <= i < |items| ==>
              r.value[i] == Repository(items[i].fields["key"], items[i].fields["rclass"])
    decreases |items|
  {
    if items == [] then Done([])
    else
      var last := items[|items| - 1];
      match Entries(items[..|items| - 1])
      case Crashed => Crashed
      case Done(init) =>
        if IsRepoEntry(last) then Done(init + [Repository(last.fields["key"], last.fields["rclass"])])
        else Crashed
  }

  /**
   * The entries `for repo in data.get(rclass, [])` visits: a missing class
   * counts as an empty list. Iterating a dictionary or a string yields
   * strings, on which `repo["key"]` raises, so only an empty one gets
   * through; any other value is not iterable.
   */
  function ClassItems(fields: map<string, Json>, rclass: string): (r: Outcome<seq<Json>>)
    ensures rclass !in fields ==> r == Done([])
    ensures rclass in fields && fields[rclass].JArr? ==> r == Done(fields[rclass].items)
    ensures r.Crashed? <==> rclass in fields && !fields[rclass].JArr?
                            && fields[rclass] != JObj(map[]) && fields[rclass] != JStr([])
    ensures r.Done? && !(rclass in fields && fields[rclass].JArr?) ==> r.value == []
  {
    match Get(fields, rclass, JArr([]))
    case JArr(items) => Done(items)
    case JObj(f) => if f == map[] then Done([]) else Crashed
    case JStr(s) => if s == [] then Done([]) else Crashed
    case _ => Crashed
  }

  /** The repositories listed under one class. */
  function ClassEntries(fields: map<string, Json>, rclass: string): Outcome<seq<Repository>>
  {
    match ClassItems(fields, rclass)
    case Crashed => Crashed
    case Done(items) => Entries(items)
  }

  /** The repositories of the given classes, class after class. */
  function Collect(fields: map<string, Json>, classes: seq<string>): Outcome<seq<Repository>>
    decreases |classes|
  {
    if classes == [] then Done([])
    else
      match Collect(fields, classes[..|classes| - 1])
      case Crashed => Crashed
      case Done(init) =>
        match ClassEntries(fields, classes[|classes| - 1])
        case Crashed => Crashed
        case Done(more) => Done(init + more)
  }

  /**
   * What the repository filtering yields for the decoded configuration: a
   * crash when it is not an object or either class's list crashes,
   * otherwise LOCAL's repositories followed by FEDERATED's.
   */
  function RepositoriesOf(data: Json): (r: Outcome<seq<Repository>>)
    ensures r.Done? <==> data.JObj? && ClassEntries(data.fields, "LOCAL").Done?
                         && ClassEntries(data.fields, "FEDERATED").Done?
    ensures r.Done? ==> r.value == ClassEntries(data.fields, "LOCAL").value + ClassEntries(data.fields, "FEDERATED").value
  {
    if data.JObj? then CollectBoth(data.fields); Collect(data.fields, Classes) else Crashed
  }

  /** Once a prefix of the classes crashes, so does the whole. */
  lemma {:induction false} CollectCrashes(fields: map<string, Json>, classes: seq<string>, n: nat)
    requires n <= |classes|
    requires Collect(fields, classes[..n]).Crashed?
    ensures Collect(fields, classes).Crashed?
    decreases |classes|
  {
    if n < |classes| {
      assert classes[..|classes| - 1][..n] == classes[..n];
      CollectCrashes(fields, classes[..|classes| - 1], n);
    } else {
      assert classes[..n] == classes;
    }
  }

  /**
   * The nested loop of `get_repositories` over the decoded configuration:
   * class after class, the class's entries are appended.
   */
  method GetRepositories(data: Json) returns (result: Outcome<seq<Repository>>)
    ensures result == RepositoriesOf(data)
  {
    if !data.JObj? {
      return Crashed;  // `data.get` on a non-dictionary raises AttributeError
    }
    var repos: seq<Repository> := [];
    for c := 0 to |Classes|
      invariant Collect(data.fields, Classes[..c]) == Done(repos)
    {
      assert Classes[..c + 1][..c] == Classes[..c];
      var listed := ClassItems(data.fields, Classes[c]);
      if listed.Crashed? {
        CollectCrashes(data.fields, Classes, c + 1);
        return Crashed;
      }
      var more := AppendEntries(listed.value);
      if more.Crashed? {
        CollectCrashes(data.fields, Classes, c + 1);
        return Crashed;
      }
      repos := repos + more.value;
    }
    assert Classes[..|Classes|] == Classes;
    return Done(repos);
  }

  /** The inner loop of `get_repositories`: one `{key, class}` per entry of a class's list. */
  method AppendEntries(items: seq<Json>) returns (result: Outcome<seq<Repository>>)
    ensures result == Entries(items)
  {
    var repos: seq<Repository> := [];
    for k := 0 to |items|
      invariant Entries(items[..k]) == Done(repos)
    {
      assert items[..k + 1][..k] == items[..k];
      var item := items[k];
      if !IsRepoEntry(item) {
        assert !IsRepoEntry(items[..|items|][k]);
        return Crashed;
      }
      repos := repos + [Repository(item.fields["key"], item.fields["rclass"])];
    }
    assert items[..|items|] == items;
    return Done(repos);
  }

  /** Collecting the two classes is LOCAL's entries followed by FEDERATED's. */
  lemma CollectBoth(fields: map<string, Json>)
    ensures Collect(fields, Classes) ==
              match ClassEntries(fields, "LOCAL")
              case Crashed => Crashed
              case Done(local) =>
                match ClassEntries(fields, "FEDERATED")
                case Crashed => Crashed
                case Done(federated) => Done(local + federated)
  {
    assert Classes[..1] == ["LOCAL"];
    assert Classes[..1][..0] == [];
    match ClassEntries(fields, "LOCAL")
    case Crashed =>
    case Done(local) =>
      assert Collect(fields, Classes[..1]) == Done([] + local);
      assert [] + local == local;
  }

  /** The items listed under a class, as far as the class yields any. */
  function Listed(fields: map<string, Json>, rclass: string): seq<Json>
  {
    match ClassItems(fields, rclass)
    case Crashed => []
    case Done(items) => items
  }

  /**
   * Every LOCAL repository comes before every FEDERATED one, and each part
   * is its class's list turned entry by entry into `{key, class}` (so it has
   * one output per entry, in list order).
   */
  lemma RepositoriesLayout(data: Json)
    requires RepositoriesOf(data).Done?
    ensures Entries(Listed(data.fields, "LOCAL")).Done?
    ensures Entries(Listed(data.fields, "FEDERATED")).Done?
    ensures RepositoriesOf(data).value
            == Entries(Listed(data.fields, "LOCAL")).value + Entries(Listed(data.fields, "FEDERATED")).value
  {
    CollectBoth(data.fields);
    assert ClassEntries(data.fields, "LOCAL") == Entries(Listed(data.fields, "LOCAL"));
    assert ClassEntries(data.fields, "FEDERATED") == Entries(Listed(data.fields, "FEDERATED"));
  }

  /**
   * The outcome depends only on what the configuration lists under LOCAL
   * and FEDERATED: repositories of any other class never appear.
   */
  lemma OtherClassesIgnored(d1: Json, d2: Json)
    requires d1.JObj? && d2.JObj?
    requires forall c :: c in Classes ==> (c in d1.fields <==> c in d2.fields)
    requires forall c :: c in Classes && c in d1.fields ==> d1.fields[c] == d2.fields[c]
    ensures RepositoriesOf(d1) == RepositoriesOf(d2)
  {
    assert "LOCAL" in Classes && "FEDERATED" in Classes;
    CollectBoth(d1.fields);
    CollectBoth(d2.fields);
    assert ClassEntries(d1.fields, "LOCAL") == ClassEntries(d2.fields, "LOCAL");
    assert ClassEntries(d1.fields, "FEDERATED") == ClassEntries(d2.fields, "FEDERATED");
  }
}
