/** Merging the shipped `opencode.json` into the user's: add what is missing, never change what is there. */
module ConfigMerge {
  import opened Text

  datatype Json =
    | Null
    | Bool(b: bool)
    | Num(n: int)
    | Str(s: string)
    | Arr(items: seq<Json>)
    | Obj(fields: map<string, Json>)

  /** The top-level keys: `plugin`, `instructions`, `provider`, `mcp`, `lsp`, `formatter`, `$schema`,
      `autoupdate`, `tool_output`, `compaction`, `small_model`, and any other. */
  datatype Key =
    | Plugin | Instructions
    | Provider
    | Mcp | Lsp | Formatter
    | Schema | AutoUpdate | ToolOutput | Compaction | SmallModel
    | Other(name: string)

  type Config = map<Key, Json>

  const NOTHING: Config := map[]

  const ARRAYS: set<Key> := {Plugin, Instructions}
  const SECTIONS: seq<Key> := [Mcp, Lsp, Formatter]
  const SCALARS: seq<Key> := [Schema, AutoUpdate, ToolOutput, Compaction, SmallModel]

  /** Absent, null, or an array of primitives. */
  predicate IsList(value: Option<Json>) {
    match value
    case None => true
    case Some(Null) => true
    case Some(Arr(items)) => forall item :: item in items ==> !item.Arr? && !item.Obj?
    case _ => false
  }

  /** Absent, null, or an object. */
  predicate IsSection(value: Option<Json>) {
    value.Some? ==> value.value.Null? || value.value.Obj?
  }

  predicate HasLists(c: Config) {
    forall key :: key in ARRAYS ==> IsList(Get(c, key))
  }

  predicate WellFormed(c: Config) {
    HasLists(c) && forall key :: key in SECTIONS ==> IsSection(Get(c, key))
  }

  function Items(value: Option<Json>): seq<Json> {
    if value.Some? && value.value.Arr? then value.value.items else []
  }

  function Entries(value: Option<Json>): map<string, Json> {
    if value.Some? && value.value.Obj? then value.value.fields else map[]
  }

  // ---------------------------------------------------------------- order-preserving removal of duplicates

  function Push<T(==)>(list: seq<T>, x: T): seq<T> {
    if x in list then list else list + [x]
  }

  function Dedup<T(==)>(list: seq<T>): seq<T> {
    if list == [] then [] else Push(Dedup(list[..|list| - 1]), list[|list| - 1])
  }

  lemma DedupSnoc<T>(list: seq<T>, x: T)
    ensures Dedup(list + [x]) == Push(Dedup(list), x)
  {
    assert (list + [x])[..|list|] == list;
  }

  lemma DedupBehind<T>(a: seq<T>, b: seq<T>, x: T)
    ensures Dedup(a + (b + [x])) == Push(Dedup(a + b), x)
  {
    Regroup(a, b, [x]);
    DedupSnoc(a + b, x);
  }

  lemma {:induction false} DedupElements<T>(list: seq<T>)
    ensures forall x :: x in Dedup(list) <==> x in list
    ensures forall i, j :: 0 <= i < j < |Dedup(list)| ==> Dedup(list)[i] != Dedup(list)[j]
  {
    if list != [] {
      DedupElements(list[..|list| - 1]);
      assert list == list[..|list| - 1] + [list[|list| - 1]];
    }
  }

  /** Adding entries at the end keeps everything that was there, in place. */
  lemma {:induction false} DedupGrows<T>(a: seq<T>, b: seq<T>)
    ensures Dedup(a) <= Dedup(a + b)
  {
    if b == [] {
      assert a + b == a;
    } else {
      var b', x := b[..|b| - 1], b[|b| - 1];
      DedupGrows(a, b');
      DedupBehind(a, b', x);
      assert b == b' + [x];
    }
  }

  lemma {:induction false} DedupLeft<T>(a: seq<T>, b: seq<T>)
    ensures Dedup(Dedup(a) + b) == Dedup(a + b)
  {
    if b == [] {
      DedupFixed(a);
      assert Dedup(a) + b == Dedup(a) && a + b == a;
    } else {
      var b', x := b[..|b| - 1], b[|b| - 1];
      DedupLeft(a, b');
      DedupBehind(Dedup(a), b', x);
      DedupBehind(a, b', x);
      assert b == b' + [x];
    }
  }

  lemma {:induction false} DedupFixed<T>(a: seq<T>)
    ensures Dedup(Dedup(a)) == Dedup(a)
  {
    if a != [] {
      var a', x := a[..|a| - 1], a[|a| - 1];
      DedupFixed(a');
      if x !in Dedup(a') {
        DedupSnoc(Dedup(a'), x);
      }
    }
  }

  lemma {:induction false} DedupRight<T>(a: seq<T>, b: seq<T>)
    ensures Dedup(a + Dedup(b)) == Dedup(a + b)
  {
    if b != [] {
      var b', x := b[..|b| - 1], b[|b| - 1];
      DedupRight(a, b');
      assert a + b == a + b' + [x];
      DedupSnoc(a + b', x);
      if x in Dedup(b') {
        DedupElements(b');
        DedupElements(a + b');
      } else {
        assert a + Dedup(b) == a + Dedup(b') + [x];
        DedupSnoc(a + Dedup(b'), x);
      }
    }
  }

  /** Nothing is appended exactly when every entry was there already. */
  lemma {:induction false} DedupAddsNothing<T>(a: seq<T>, b: seq<T>)
    ensures Dedup(a + b) == Dedup(a) <==> forall x :: x in b ==> x in a
  {
    if b == [] {
      assert a + b == a;
    } else {
      var b', x := b[..|b| - 1], b[|b| - 1];
      DedupAddsNothing(a, b');
      DedupGrows(a, b');
      DedupElements(a);
      assert a + b == a + b' + [x] && b == b' + [x];
      DedupSnoc(a + b', x);
    }
  }

  /** The inner loop of `unionArrays`: one source's items, each pushed unless it has been seen. */
  method AddUnseen(result: seq<Json>, seen: set<Json>, items: seq<Json>, ghost taken: seq<Json>)
    returns (longer: seq<Json>, more: set<Json>)
    requires result == Dedup(taken) && forall x :: x in seen <==> x in result
    ensures longer == Dedup(taken + items) && forall x :: x in more <==> x in longer
  {
    longer, more := result, seen;
    assert taken + items[..0] == taken;
    for j := 0 to |items|
      invariant longer == Dedup(taken + items[..j])
      invariant forall x :: x in more <==> x in longer
    {
      DedupSnoc(taken + items[..j], items[j]);
      assert taken + items[..j + 1] == taken + items[..j] + [items[j]];
      if items[j] !in more {
        more := more + {items[j]};
        longer := longer + [items[j]];
      }
    }
    assert items[..|items|] == items;
  }

  /** `unionArrays`: the user's entries first, then the shipped ones that are not there yet. */
  method UnionArrays(user: Option<Json>, shipped: Option<Json>) returns (result: seq<Json>)
    requires IsList(user) && IsList(shipped)
    ensures result == Dedup(Items(user) + Items(shipped))
  {
    var seen: set<Json>;
    result, seen := AddUnseen([], {}, Items(user), []);
    assert [] + Items(user) == Items(user);
    result, seen := AddUnseen(result, seen, Items(shipped), Items(user));
  }

  // ---------------------------------------------------------------- the merge

  function MergedSection(user: Option<Json>, shipped: Option<Json>): Option<Json> {
    if shipped.Some? && shipped.value.Obj? then Some(Obj(shipped.value.fields + Entries(user))) else user
  }

  /** What the merged document holds under one key. */
  function Merged(key: Key, user: Option<Json>, shipped: Option<Json>): Option<Json> {
    if key in ARRAYS then Some(Arr(Dedup(Items(user) + Items(shipped))))
    else if key in SECTIONS then MergedSection(user, shipped)
    else if key == Provider || key in SCALARS then OrElse(user, shipped)
    else user
  }

  function Merge(user: Config, shipped: Config): Config {
    map key | key in user.Keys + shipped.Keys + ARRAYS && Merged(key, Get(user, key), Get(shipped, key)).Some? ::
      Merged(key, Get(user, key), Get(shipped, key)).value
  }

  lemma MergeAt(user: Config, shipped: Config, key: Key)
    ensures Get(Merge(user, shipped), key) == Merged(key, Get(user, key), Get(shipped, key))
  {
  }

  lemma SameConfig(a: Config, b: Config)
    requires forall key :: Get(a, key) == Get(b, key)
    ensures a == b
  {
    forall key
      ensures (key in a <==> key in b) && (key in a && key in b ==> a[key] == b[key])
    {
      assert Get(a, key) == Get(b, key);
    }
    SameMap(a, b);
  }

  /** The entries of a section, added one by one unless the section has them. */
  method AddMissing(section: map<string, Json>, shipped: map<string, Json>) returns (result: map<string, Json>)
    ensures result == shipped + section
  {
    result := section;
    var keys := shipped.Keys;
    while keys != {}
      invariant keys <= shipped.Keys
      invariant forall key :: key in result <==> key in section || (key in shipped && key !in keys)
      invariant forall key :: key in result ==> result[key] == if key in section then section[key] else shipped[key]
      decreases |keys|
    {
      var key :| key in keys;
      if key !in result {
        result := result[key := shipped[key]];
      }
      keys := keys - {key};
    }
    SameMap(result, shipped + section);
  }

  ghost predicate HasSections(result: Config, config: Config, shipped: Config, sections: seq<Key>) {
    forall key ::
      Get(result, key) ==
      if key in sections then MergedSection(Get(config, key), Get(shipped, key)) else Get(config, key)
  }

  method AddSections(config: Config, shipped: Config, sections: seq<Key>) returns (result: Config)
    requires Distinct(sections)
    ensures HasSections(result, config, shipped, sections)
  {
    result := config;
    for i := 0 to |sections|
      invariant forall key :: key in sections[..i] ==>
                  Get(result, key) == MergedSection(Get(config, key), Get(shipped, key))
      invariant forall key :: key !in sections[..i] ==> Get(result, key) == Get(config, key)
    {
      var section := sections[i];
      assert section !in sections[..i];
      assert sections[..i + 1] == sections[..i] + [section];
      if section in shipped && shipped[section].Obj? {
        var merged := AddMissing(Entries(Get(result, section)), shipped[section].fields);
        result := result[section := Obj(merged)];
      }
    }
    assert sections[..|sections|] == sections;
  }

  ghost predicate HasScalars(result: Config, config: Config, shipped: Config, scalars: seq<Key>) {
    forall key ::
      Get(result, key) ==
      if key in scalars then OrElse(Get(config, key), Get(shipped, key)) else Get(config, key)
  }

  method AddScalars(config: Config, shipped: Config, scalars: seq<Key>) returns (result: Config)
    requires Distinct(scalars)
    ensures HasScalars(result, config, shipped, scalars)
  {
    result := config;
    for i := 0 to |scalars|
      invariant forall key :: key in scalars[..i] ==> Get(result, key) == OrElse(Get(config, key), Get(shipped, key))
      invariant forall key :: key !in scalars[..i] ==> Get(result, key) == Get(config, key)
    {
      var scalar := scalars[i];
      assert scalar !in scalars[..i];
      assert scalars[..i + 1] == scalars[..i] + [scalar];
      if scalar !in result && scalar in shipped {
        result := result[scalar := shipped[scalar]];
      }
    }
    assert scalars[..|scalars|] == scalars;
  }

  /** What the arrays and the provider block become. */
  function MergedTop(key: Key, user: Option<Json>, shipped: Option<Json>): Option<Json> {
    if key in ARRAYS then Some(Arr(Dedup(Items(user) + Items(shipped))))
    else if key == Provider then OrElse(user, shipped)
    else user
  }

  ghost predicate HasTop(result: Config, user: Config, shipped: Config) {
    forall key :: Get(result, key) == MergedTop(key, Get(user, key), Get(shipped, key))
  }

  method AddTop(user: Config, shipped: Config) returns (result: Config)
    requires WellFormed(user) && HasLists(shipped)
    ensures HasTop(result, user, shipped)
  {
    var plugin := UnionArrays(Get(user, Plugin), Get(shipped, Plugin));
    var instructions := UnionArrays(Get(user, Instructions), Get(shipped, Instructions));
    result := user[Plugin := Arr(plugin)][Instructions := Arr(instructions)];
    if Provider !in result && Provider in shipped {
      result := result[Provider := shipped[Provider]];
    }
  }

  /** The three stages together: arrays and provider, then sections, then scalars. */
  lemma StagesMakeMerge(user: Config, shipped: Config, top: Config, middle: Config, last: Config, key: Key)
    requires Get(top, key) == MergedTop(key, Get(user, key), Get(shipped, key))
    requires Get(middle, key) ==
             if key in SECTIONS then MergedSection(Get(top, key), Get(shipped, key)) else Get(top, key)
    requires Get(last, key) ==
             if key in SCALARS then OrElse(Get(middle, key), Get(shipped, key)) else Get(middle, key)
    ensures Get(last, key) == Get(Merge(user, shipped), key)
  {
    MergeAt(user, shipped, key);
  }

  lemma StagesGiveMerge(user: Config, shipped: Config, top: Config, middle: Config, last: Config)
    requires HasTop(top, user, shipped)
    requires HasSections(middle, top, shipped, SECTIONS)
    requires HasScalars(last, middle, shipped, SCALARS)
    ensures last == Merge(user, shipped)
  {
    forall key
      ensures Get(last, key) == Get(Merge(user, shipped), key)
    {
      StagesMakeMerge(user, shipped, top, middle, last, key);
    }
    SameConfig(last, Merge(user, shipped));
  }

  lemma SectionsAreDistinct()
    ensures Distinct(SECTIONS)
  {
  }

  lemma ScalarsAreDistinct()
    ensures Distinct(SCALARS)
  {
  }

  /** `mergeOpencodeJson`. */
  method MergeOpencodeJson(user: Config, shipped: Config) returns (result: Config)
    requires WellFormed(user) && HasLists(shipped)
    ensures result == Merge(user, shipped)
  {
    var top := AddTop(user, shipped);
    SectionsAreDistinct();
    var middle := AddSections(top, shipped, SECTIONS);
    ScalarsAreDistinct();
    result := AddScalars(middle, shipped, SCALARS);
    StagesGiveMerge(user, shipped, top, middle, result);
  }

  // ---------------------------------------------------------------- the algebra of the merge

  lemma MergedAssociates(key: Key, user: Option<Json>, first: Option<Json>, second: Option<Json>)
    ensures Merged(key, Merged(key, user, first), second) == Merged(key, user, Merged(key, first, second))
  {
    if key in ARRAYS {
      var u, a, b := Items(user), Items(first), Items(second);
      DedupLeft(u + a, b);
      DedupRight(u, a + b);
      Regroup(u, a, b);
    } else if key in SECTIONS && second.Some? && second.value.Obj? {
      SameMap(second.value.fields + (Entries(first) + Entries(user)),
              (second.value.fields + Entries(first)) + Entries(user));
      SameMap(second.value.fields + map[] + Entries(user), second.value.fields + Entries(user));
    }
  }

  /** Merging two releases into a config one after the other is merging the merged releases. */
  lemma MergeAssociates(user: Config, first: Config, second: Config)
    ensures Merge(Merge(user, first), second) == Merge(user, Merge(first, second))
  {
    forall key
      ensures Get(Merge(Merge(user, first), second), key) == Get(Merge(user, Merge(first, second)), key)
    {
      MergeAt(user, first, key);
      MergeAt(first, second, key);
      MergeAt(Merge(user, first), second, key);
      MergeAt(user, Merge(first, second), key);
      MergedAssociates(key, Get(user, key), Get(first, key), Get(second, key));
    }
    SameConfig(Merge(Merge(user, first), second), Merge(user, Merge(first, second)));
  }

  lemma MergedTwice(key: Key, user: Option<Json>, shipped: Option<Json>)
    ensures Merged(key, Merged(key, user, shipped), shipped) == Merged(key, user, shipped)
  {
    if key in ARRAYS {
      var u, s := Items(user), Items(shipped);
      DedupLeft(u + s, s);
      DedupAddsNothing(u + s, s);
    } else if key in SECTIONS && shipped.Some? && shipped.value.Obj? {
      SameMap(shipped.value.fields + (shipped.value.fields + Entries(user)), shipped.value.fields + Entries(user));
    }
  }

  lemma MergeTwice(user: Config, shipped: Config)
    ensures Merge(Merge(user, shipped), shipped) == Merge(user, shipped)
  {
    forall key
      ensures Get(Merge(Merge(user, shipped), shipped), key) == Get(Merge(user, shipped), key)
    {
      MergeAt(user, shipped, key);
      MergeAt(Merge(user, shipped), shipped, key);
      MergedTwice(key, Get(user, key), Get(shipped, key));
    }
    SameConfig(Merge(Merge(user, shipped), shipped), Merge(user, shipped));
  }

  /** The result can be merged into again: its arrays hold primitives and its sections are sections. */
  lemma MergeStaysWellFormed(user: Config, shipped: Config)
    requires WellFormed(user) && HasLists(shipped)
    ensures WellFormed(Merge(user, shipped))
  {
    forall key | key in ARRAYS || key in SECTIONS
      ensures key in ARRAYS ==> IsList(Get(Merge(user, shipped), key))
      ensures key in SECTIONS ==> IsSection(Get(Merge(user, shipped), key))
    {
      MergeAt(user, shipped, key);
      DedupElements(Items(Get(user, key)) + Items(Get(shipped, key)));
    }
  }

  /** Nothing of the user's is lost or moved: every section entry, the provider block, the scalars and the
      unknown keys keep their value, and the de-duplicated user array is a prefix of the merged one. */
  lemma MergeKeepsUser(user: Config, shipped: Config, key: Key)
    requires key in user
    ensures key in Merge(user, shipped)
    ensures key in ARRAYS ==> Dedup(Items(Get(user, key))) <= Items(Get(Merge(user, shipped), key))
    ensures key in SECTIONS && user[key].Obj? ==>
              Merge(user, shipped)[key].Obj?
              && forall name :: name in user[key].fields ==>
                   && name in Merge(user, shipped)[key].fields
                   && Merge(user, shipped)[key].fields[name] == user[key].fields[name]
    ensures key !in ARRAYS && key !in SECTIONS ==> Merge(user, shipped)[key] == user[key]
  {
    MergeAt(user, shipped, key);
    DedupGrows(Items(Get(user, key)), Items(Get(shipped, key)));
  }

  /** Nothing is invented: every key, section entry and array item of the result is the user's or, failing
      that, the shipped one; only the two arrays are created, empty, where both configs lack them. */
  lemma MergeInventsNothing(user: Config, shipped: Config, key: Key)
    requires key in Merge(user, shipped)
    ensures key in user || key in shipped || (key in ARRAYS && Merge(user, shipped)[key] == Arr([]))
    ensures key in ARRAYS ==> forall item ::
              item in Items(Get(Merge(user, shipped), key))
              <==> item in Items(Get(user, key)) || item in Items(Get(shipped, key))
    ensures key in SECTIONS && Merge(user, shipped)[key].Obj? ==>
              forall name :: name in Merge(user, shipped)[key].fields ==>
                var fromUser, fromShipped := Entries(Get(user, key)), Entries(Get(shipped, key));
                && (name in fromUser || name in fromShipped)
                && Merge(user, shipped)[key].fields[name] ==
                   if name in fromUser then fromUser[name] else fromShipped[name]
    ensures key !in ARRAYS && key !in SECTIONS && key !in user ==>
              (key == Provider || key in SCALARS) && key in shipped && Merge(user, shipped)[key] == shipped[key]
  {
    MergeAt(user, shipped, key);
    DedupElements(Items(Get(user, key)) + Items(Get(shipped, key)));
  }

  // ---------------------------------------------------------------- key by key

  /** Whether this item is in the array under the key, if there is one. */
  predicate HasItem(c: Config, key: Key, item: Json) {
    key in c && c[key].Arr? && item in c[key].items
  }

  /** Whether the section under the key has an entry of this name. */
  predicate HasEntry(c: Config, key: Key, name: string) {
    key in c && c[key].Obj? && name in c[key].fields
  }

  /** `plugin` and `instructions` become arrays with the items of both, each once, those of the user first. */
  lemma ArraysAreUnited(user: Config, shipped: Config, key: Key)
    requires key in {Plugin, Instructions}
    ensures key in Merge(user, shipped) && Merge(user, shipped)[key].Arr?
    ensures var items := Merge(user, shipped)[key].items;
            && Distinct(items)
            && (forall item :: item in items <==> HasItem(user, key, item) || HasItem(shipped, key, item))
            && forall i, j :: 0 <= i < j < |items| && HasItem(user, key, items[j]) ==> HasItem(user, key, items[i])
  {
    MergeAt(user, shipped, key);
    DedupElements(Items(Get(user, key)) + Items(Get(shipped, key)));
    DedupElements(Items(Get(user, key)));
    DedupGrows(Items(Get(user, key)), Items(Get(shipped, key)));
    var all, own := Dedup(Items(Get(user, key)) + Items(Get(shipped, key))), Dedup(Items(Get(user, key)));
    forall i, j | 0 <= i < j < |all| && HasItem(user, key, all[j])
      ensures HasItem(user, key, all[i])
    {
      OwnItemsFirst(own, all, i, j);
    }
  }

  lemma OwnItemsFirst<T>(own: seq<T>, all: seq<T>, i: nat, j: nat)
    requires own <= all && Distinct(all) && i < j < |all| && all[j] in own
    ensures all[i] in own
  {
    var k :| 0 <= k < |own| && own[k] == all[j];
    assert all[k] == all[j];
  }

  /** `mcp`, `lsp` and `formatter` hold the entries of both, the user's where both have one. A shipped value
      that is no object changes nothing. */
  lemma SectionsAreUnited(user: Config, shipped: Config, key: Key, name: string)
    requires key in {Mcp, Lsp, Formatter}
    ensures var merged := Merge(user, shipped);
            if key in shipped && shipped[key].Obj? then
              && key in merged && merged[key].Obj?
              && (name in merged[key].fields <==> HasEntry(user, key, name) || HasEntry(shipped, key, name))
              && (HasEntry(user, key, name) ==> merged[key].fields[name] == user[key].fields[name])
              && (HasEntry(shipped, key, name) && !HasEntry(user, key, name) ==>
                    merged[key].fields[name] == shipped[key].fields[name])
            else Get(merged, key) == Get(user, key)
  {
    MergeAt(user, shipped, key);
  }

  /** The provider block and the five scalars are the user's, or the shipped ones if the user has none; every
      other key is the user's. */
  lemma OtherKeysAreKept(user: Config, shipped: Config, key: Key)
    ensures key in {Provider, Schema, AutoUpdate, ToolOutput, Compaction, SmallModel} ==>
              && (key in Merge(user, shipped) <==> key in user || key in shipped)
              && (key in user ==> Merge(user, shipped)[key] == user[key])
              && (key in shipped && key !in user ==> Merge(user, shipped)[key] == shipped[key])
    ensures key.Other? ==> Get(Merge(user, shipped), key) == Get(user, key)
  {
    MergeAt(user, shipped, key);
  }

  // ---------------------------------------------------------------- the list of changes

  datatype Change = AddedItem(list: Key, item: Json) | AddedEntry(section: Key, name: string) | SetScalar(scalar: Key)

  /** What `merged` has and `user` has not, of the three kinds of things that are reported. */
  predicate IsAddition(change: Change, user: Config, merged: Config) {
    match change
    case AddedItem(key, item) => key in ARRAYS && item in Items(Get(merged, key)) && item !in Items(Get(user, key))
    case AddedEntry(key, name) =>
      key in SECTIONS && name in Entries(Get(merged, key)) && name !in Entries(Get(user, key))
    case SetScalar(key) => key in SCALARS && key in merged && key !in user
  }

  /** The same, as the source decides it: from the shipped config. */
  predicate IsMissing(change: Change, user: Config, shipped: Config) {
    match change
    case AddedItem(key, item) => key in ARRAYS && item in Items(Get(shipped, key)) && item !in Items(Get(user, key))
    case AddedEntry(key, name) =>
      key in SECTIONS && name in Entries(Get(shipped, key)) && name !in Entries(Get(user, key))
    case SetScalar(key) => key in SCALARS && key in shipped && key !in user
  }

  lemma ItemIsAdded(key: Key, user: Config, shipped: Config, item: Json)
    requires key in ARRAYS
    ensures item in Items(Get(Merge(user, shipped), key))
            <==> item in Items(Get(user, key)) || item in Items(Get(shipped, key))
  {
    MergeAt(user, shipped, key);
    DedupElements(Items(Get(user, key)) + Items(Get(shipped, key)));
  }

  lemma EntryIsAdded(key: Key, user: Config, shipped: Config, name: string)
    requires key in SECTIONS
    ensures name in Entries(Get(Merge(user, shipped), key))
            <==> name in Entries(Get(user, key)) || name in Entries(Get(shipped, key))
  {
    MergeAt(user, shipped, key);
  }

  lemma ScalarIsAdded(key: Key, user: Config, shipped: Config)
    requires key in SCALARS
    ensures key in Merge(user, shipped) <==> key in user || key in shipped
  {
    MergeAt(user, shipped, key);
  }

  lemma MissingIsAdded(change: Change, user: Config, shipped: Config)
    ensures IsMissing(change, user, shipped) <==> IsAddition(change, user, Merge(user, shipped))
  {
    match change
    case AddedItem(key, item) =>
      if key in ARRAYS {
        ItemIsAdded(key, user, shipped, item);
      }
    case AddedEntry(key, name) =>
      if key in SECTIONS {
        EntryIsAdded(key, user, shipped, name);
      }
    case SetScalar(key) =>
      if key in SCALARS {
        ScalarIsAdded(key, user, shipped);
      }
  }

  /** The shipped items that the user lacks, in order and with repetitions. */
  function MissingItems(key: Key, user: seq<Json>, shipped: seq<Json>): (changes: seq<Change>)
    ensures forall c :: c in changes <==> c.AddedItem? && c.list == key && c.item in shipped && c.item !in user
  {
    if shipped == [] then []
    else
      var front, item := shipped[..|shipped| - 1], shipped[|shipped| - 1];
      assert shipped == front + [item];
      MissingItems(key, user, front) + if item in user then [] else [AddedItem(key, item)]
  }

  /** The scalars that only the shipped config has, in order. */
  function MissingScalars(user: Config, shipped: Config, scalars: seq<Key>): (changes: seq<Change>)
    ensures forall c ::
              c in changes <==> c.SetScalar? && c.scalar in scalars && c.scalar in shipped && c.scalar !in user
  {
    if scalars == [] then []
    else
      var front, key := scalars[..|scalars| - 1], scalars[|scalars| - 1];
      assert scalars == front + [key];
      MissingScalars(user, shipped, front) + if key !in user && key in shipped then [SetScalar(key)] else []
  }

  /** The entries that a section lacks, each once, in some order. */
  ghost predicate AreEntries(changes: seq<Change>, key: Key, user: map<string, Json>, shipped: map<string, Json>) {
    && Distinct(changes)
    && forall c :: c in changes <==> c.AddedEntry? && c.section == key && c.name in shipped && c.name !in user
  }

  /** The same for the sections, one after the other. */
  ghost predicate AreInSections(changes: seq<Change>, user: Config, shipped: Config, sections: seq<Key>)
    decreases |sections|
  {
    if sections == [] then changes == []
    else
      var key := sections[|sections| - 1];
      exists n: nat ::
        && n <= |changes| && AreInSections(changes[..n], user, shipped, sections[..|sections| - 1])
        && AreEntries(changes[n..], key, Entries(Get(user, key)), Entries(Get(shipped, key)))
  }

  lemma {:induction false} SectionsExactly(changes: seq<Change>, user: Config, shipped: Config, sections: seq<Key>,
                                           c: Change)
    requires AreInSections(changes, user, shipped, sections)
    ensures c in changes <==> c.AddedEntry? && c.section in sections
                              && c.name in Entries(Get(shipped, c.section)) && c.name !in Entries(Get(user, c.section))
    decreases |sections|
  {
    if sections != [] {
      var front, key := sections[..|sections| - 1], sections[|sections| - 1];
      var n: nat :| n <= |changes| && AreInSections(changes[..n], user, shipped, front)
                    && AreEntries(changes[n..], key, Entries(Get(user, key)), Entries(Get(shipped, key)));
      SectionsExactly(changes[..n], user, shipped, front, c);
      assert changes == changes[..n] + changes[n..];
      assert sections == front + [key];
    }
  }

  method ItemChanges(key: Key, user: seq<Json>, shipped: seq<Json>) returns (changes: seq<Change>)
    ensures changes == MissingItems(key, user, shipped)
  {
    changes := [];
    for i := 0 to |shipped|
      invariant changes == MissingItems(key, user, shipped[..i])
    {
      assert shipped[..i + 1][..i] == shipped[..i];
      if shipped[i] !in user {
        changes := changes + [AddedItem(key, shipped[i])];
      }
    }
    assert shipped[..|shipped|] == shipped;
  }

  method EntryChanges(key: Key, user: map<string, Json>, shipped: map<string, Json>) returns (changes: seq<Change>)
    ensures AreEntries(changes, key, user, shipped)
  {
    changes := [];
    var names := shipped.Keys;
    while names != {}
      invariant names <= shipped.Keys && Distinct(changes)
      invariant forall c ::
                  c in changes <==>
                  c.AddedEntry? && c.section == key && c.name in shipped.Keys - names && c.name !in user
      decreases |names|
    {
      var name :| name in names;
      if name !in user {
        assert AddedEntry(key, name) !in changes;
        changes := changes + [AddedEntry(key, name)];
      }
      names := names - {name};
    }
  }

  method SectionChanges(user: Config, shipped: Config, sections: seq<Key>) returns (changes: seq<Change>)
    ensures AreInSections(changes, user, shipped, sections)
  {
    changes := [];
    for i := 0 to |sections|
      invariant AreInSections(changes, user, shipped, sections[..i])
    {
      var more := [];
      if sections[i] in shipped && shipped[sections[i]].Obj? {
        more := EntryChanges(sections[i], Entries(Get(user, sections[i])), shipped[sections[i]].fields);
      }
      OneMoreSection(changes, more, user, shipped, sections, i);
      changes := changes + more;
    }
    assert sections[..|sections|] == sections;
  }

  lemma OneMoreSection(changes: seq<Change>, more: seq<Change>, user: Config, shipped: Config, sections: seq<Key>,
                       i: nat)
    requires i < |sections| && AreInSections(changes, user, shipped, sections[..i])
    requires AreEntries(more, sections[i], Entries(Get(user, sections[i])), Entries(Get(shipped, sections[i])))
    ensures AreInSections(changes + more, user, shipped, sections[..i + 1])
  {
    var n := |changes|;
    assert sections[..i + 1][..i] == sections[..i];
    assert (changes + more)[..n] == changes && (changes + more)[n..] == more;
  }

  method ScalarChanges(user: Config, shipped: Config, scalars: seq<Key>) returns (changes: seq<Change>)
    ensures changes == MissingScalars(user, shipped, scalars)
  {
    changes := [];
    for i := 0 to |scalars|
      invariant changes == MissingScalars(user, shipped, scalars[..i])
    {
      assert scalars[..i + 1][..i] == scalars[..i];
      if scalars[i] !in user && scalars[i] in shipped {
        changes := changes + [SetScalar(scalars[i])];
      }
    }
    assert scalars[..|scalars|] == scalars;
  }

  function ItemsMissing(key: Key, user: Config, shipped: Config): seq<Change> {
    MissingItems(key, Items(Get(user, key)), Items(Get(shipped, key)))
  }

  /** The messages in their order: plugins, instructions, the sections, the scalars. */
  ghost predicate IsChangeList(changes: seq<Change>, user: Config, shipped: Config) {
    exists entries ::
      && AreInSections(entries, user, shipped, SECTIONS)
      && changes == ItemsMissing(Plugin, user, shipped) + ItemsMissing(Instructions, user, shipped)
                    + entries + MissingScalars(user, shipped, SCALARS)
  }

  lemma PartsAreMissing(plugins: seq<Change>, instructions: seq<Change>, entries: seq<Change>, scalars: seq<Change>,
                        user: Config, shipped: Config, c: Change)
    requires c in plugins <==> c.AddedItem? && c.list == Plugin && IsMissing(c, user, shipped)
    requires c in instructions <==> c.AddedItem? && c.list == Instructions && IsMissing(c, user, shipped)
    requires c in entries <==> c.AddedEntry? && IsMissing(c, user, shipped)
    requires c in scalars <==> c.SetScalar? && IsMissing(c, user, shipped)
    ensures c in plugins + instructions + entries + scalars <==> IsMissing(c, user, shipped)
  {
  }

  /** The change list is exactly the difference that the merge makes, apart from the provider block. */
  lemma ChangeListIsDifference(changes: seq<Change>, user: Config, shipped: Config, c: Change)
    requires IsChangeList(changes, user, shipped)
    ensures c in changes <==> IsAddition(c, user, Merge(user, shipped))
  {
    var entries :| AreInSections(entries, user, shipped, SECTIONS)
                   && changes == ItemsMissing(Plugin, user, shipped) + ItemsMissing(Instructions, user, shipped)
                                 + entries + MissingScalars(user, shipped, SCALARS);
    MissingIsAdded(c, user, shipped);
    SectionsExactly(entries, user, shipped, SECTIONS, c);
    PartsAreMissing(ItemsMissing(Plugin, user, shipped), ItemsMissing(Instructions, user, shipped), entries,
                    MissingScalars(user, shipped, SCALARS), user, shipped, c);
  }

  /** What is reported, key by key: each shipped item of the two arrays, each shipped entry of the three sections
      and each of the five shipped scalars that the user lacks, and nothing else. */
  lemma ReportedExactly(user: Config, shipped: Config, c: Change)
    ensures IsAddition(c, user, Merge(user, shipped)) <==>
            match c
            case AddedItem(key, item) =>
              && key in {Plugin, Instructions}
              && HasItem(shipped, key, item) && !HasItem(user, key, item)
            case AddedEntry(key, name) =>
              && key in {Mcp, Lsp, Formatter}
              && HasEntry(shipped, key, name) && !HasEntry(user, key, name)
            case SetScalar(key) =>
              && key in {Schema, AutoUpdate, ToolOutput, Compaction, SmallModel}
              && key in shipped && key !in user
  {
    MissingIsAdded(c, user, shipped);
  }

  lemma MissingItemsSnoc(key: Key, user: seq<Json>, list: seq<Json>, x: Json)
    ensures MissingItems(key, user, list + [x])
         == MissingItems(key, user, list) + (if x in user then [] else [AddedItem(key, x)])
  {
    assert (list + [x])[..|list|] == list;
  }

  /** The items are listed in the order of the shipped ones. */
  lemma {:induction false} MissingItemsInOrder(key: Key, user: seq<Json>, first: seq<Json>, second: seq<Json>)
    ensures MissingItems(key, user, first + second)
         == MissingItems(key, user, first) + MissingItems(key, user, second)
  {
    if second == [] {
      assert first + second == first;
      assert MissingItems(key, user, first) + [] == MissingItems(key, user, first);
    } else {
      var front, x := second[..|second| - 1], second[|second| - 1];
      MissingItemsInOrder(key, user, first, front);
      MissingItemsSnoc(key, user, first + front, x);
      MissingItemsSnoc(key, user, front, x);
      Regroup(first, front, [x]);
      Regroup(MissingItems(key, user, first), MissingItems(key, user, front),
              if x in user then [] else [AddedItem(key, x)]);
      assert second == front + [x];
    }
  }

  lemma MissingScalarsSnoc(user: Config, shipped: Config, list: seq<Key>, x: Key)
    ensures MissingScalars(user, shipped, list + [x])
         == MissingScalars(user, shipped, list) + (if x !in user && x in shipped then [SetScalar(x)] else [])
  {
    assert (list + [x])[..|list|] == list;
  }

  /** So are the scalars. */
  lemma {:induction false} MissingScalarsInOrder(user: Config, shipped: Config, first: seq<Key>, second: seq<Key>)
    ensures MissingScalars(user, shipped, first + second)
         == MissingScalars(user, shipped, first) + MissingScalars(user, shipped, second)
  {
    if second == [] {
      assert first + second == first;
      assert MissingScalars(user, shipped, first) + [] == MissingScalars(user, shipped, first);
    } else {
      var front, x := second[..|second| - 1], second[|second| - 1];
      MissingScalarsInOrder(user, shipped, first, front);
      MissingScalarsSnoc(user, shipped, first + front, x);
      MissingScalarsSnoc(user, shipped, front, x);
      Regroup(first, front, [x]);
      Regroup(MissingScalars(user, shipped, first), MissingScalars(user, shipped, front),
              if x !in user && x in shipped then [SetScalar(x)] else []);
      assert second == front + [x];
    }
  }

  /** `mergeOpencodeJsonWithDiff`. */
  method MergeOpencodeJsonWithDiff(user: Config, shipped: Config) returns (merged: Config, changes: seq<Change>)
    requires WellFormed(user) && HasLists(shipped)
    ensures merged == Merge(user, shipped)
    ensures IsChangeList(changes, user, shipped)
    ensures forall c :: c in changes <==> IsAddition(c, user, merged)
  {
    merged := MergeOpencodeJson(user, shipped);
    var plugins := ItemChanges(Plugin, Items(Get(user, Plugin)), Items(Get(shipped, Plugin)));
    var instructions := ItemChanges(Instructions, Items(Get(user, Instructions)), Items(Get(shipped, Instructions)));
    var entries := SectionChanges(user, shipped, SECTIONS);
    var scalars := ScalarChanges(user, shipped, SCALARS);
    changes := plugins + instructions + entries + scalars;
    forall c
      ensures c in changes <==> IsAddition(c, user, merged)
    {
      ChangeListIsDifference(changes, user, shipped, c);
    }
  }

  /** A second merge of the same release has nothing to report. */
  lemma RerunReportsNothing(user: Config, shipped: Config, change: Change)
    ensures !IsAddition(change, Merge(user, shipped), Merge(Merge(user, shipped), shipped))
  {
    MergeTwice(user, shipped);
  }

  /** An empty change list means that the release brought nothing, the user's file being only normalised,
      if and only if the release neither brings a provider block nor creates an empty section. */
  lemma EmptyChangeList(user: Config, shipped: Config)
    requires WellFormed(user)
    ensures Merge(user, shipped) == Merge(user, NOTHING) <==>
            && (forall c :: !IsAddition(c, user, Merge(user, shipped)))
            && (Provider in shipped ==> Provider in user)
            && (forall key :: key in SECTIONS && key in shipped && shipped[key].Obj? ==> key in user && user[key].Obj?)
  {
    if Merge(user, shipped) == Merge(user, NOTHING) {
      forall c
        ensures !IsAddition(c, user, Merge(user, shipped))
      {
        MissingIsAdded(c, user, NOTHING);
      }
      MergeAt(user, shipped, Provider);
      MergeAt(user, NOTHING, Provider);
      forall key | key in SECTIONS && key in shipped && shipped[key].Obj?
        ensures key in user && user[key].Obj?
      {
        MergeAt(user, shipped, key);
        MergeAt(user, NOTHING, key);
      }
    }
    if
      && (forall c :: !IsAddition(c, user, Merge(user, shipped)))
      && (Provider in shipped ==> Provider in user)
      && (forall key :: key in SECTIONS && key in shipped && shipped[key].Obj? ==> key in user && user[key].Obj?)
    {
      forall key
        ensures Get(Merge(user, shipped), key) == Get(Merge(user, NOTHING), key)
      {
        NothingMissing(user, shipped, key);
      }
      SameConfig(Merge(user, shipped), Merge(user, NOTHING));
    }
  }

  lemma NothingMissing(user: Config, shipped: Config, key: Key)
    requires forall c :: !IsAddition(c, user, Merge(user, shipped))
    requires key == Provider && key in shipped ==> key in user
    requires key in SECTIONS && key in shipped && shipped[key].Obj? ==> key in user && user[key].Obj?
    ensures Get(Merge(user, shipped), key) == Get(Merge(user, NOTHING), key)
  {
    MergeAt(user, shipped, key);
    MergeAt(user, NOTHING, key);
    var u, s := Items(Get(user, key)), Items(Get(shipped, key));
    if key in ARRAYS {
      forall item | item in s
        ensures item in u
      {
        MissingIsAdded(AddedItem(key, item), user, shipped);
      }
      DedupAddsNothing(u, s);
      assert u + [] == u;
    } else if key in SECTIONS && key in shipped && shipped[key].Obj? {
      forall name | name in shipped[key].fields
        ensures name in Entries(Get(user, key))
      {
        MissingIsAdded(AddedEntry(key, name), user, shipped);
      }
      SameMap(shipped[key].fields + user[key].fields, user[key].fields);
    } else if key in SCALARS {
      MissingIsAdded(SetScalar(key), user, shipped);
    }
  }

  /** Merging nothing leaves a file alone exactly when both of its arrays are there, without duplicates. */
  lemma NormalForm(user: Config)
    ensures Merge(user, NOTHING) == user <==>
            forall key :: key in ARRAYS ==> key in user && user[key] == Arr(Dedup(Items(Get(user, key))))
  {
    forall key
      ensures Get(Merge(user, NOTHING), key)
           == if key in ARRAYS then Some(Arr(Dedup(Items(Get(user, key))))) else Get(user, key)
    {
      MergeAt(user, NOTHING, key);
      assert Items(Get(user, key)) + [] == Items(Get(user, key));
    }
    if forall key :: key in ARRAYS ==> key in user && user[key] == Arr(Dedup(Items(Get(user, key)))) {
      SameConfig(Merge(user, NOTHING), user);
    } else {
      var key :| key in ARRAYS && !(key in user && user[key] == Arr(Dedup(Items(Get(user, key)))));
      assert Get(Merge(user, NOTHING), key) != Get(user, key);
    }
  }

  /** The change list can be empty although the merge adds a provider block. */
  lemma ProviderIsNotReported(block: Json)
    ensures var user: Config := map[Plugin := Arr([]), Instructions := Arr([])];
            var shipped: Config := map[Provider := block];
            && Provider in Merge(user, shipped) && Provider !in user
            && forall c :: !IsAddition(c, user, Merge(user, shipped))
  {
    var user: Config := map[Plugin := Arr([]), Instructions := Arr([])];
    var shipped: Config := map[Provider := block];
    MergeAt(user, shipped, Provider);
    forall c
      ensures !IsAddition(c, user, Merge(user, shipped))
    {
      MissingIsAdded(c, user, shipped);
    }
  }
}
