/**
 * `FileOrganizer.organize` of file_organizer.py: files directly in a target directory are
 * grouped by extension key and moved (unless it is a dry run) into "<key>_files" folders
 * beside them. The disk is a class whose fields the moves update; the `os.listdir` order of
 * the target is an input.
 */
module FileOrganizer {
  import opened Wrappers
  import opened Text
  import opened Paths
  import opened Extensions

  /** One planned move: (source, destination). */
  datatype Action = Action(source: string, dest: string)

  /** The part of the filesystem `organize` sees: regular files with contents, and directories. */
  class Disk {
    var files: map<string, Bytes>
    var dirs: set<string>

    constructor (files: map<string, Bytes>, dirs: set<string>)
      ensures this.files == files && this.dirs == dirs
    {
      this.files := files;
      this.dirs := dirs;
    }
  }

  /** `os.path.join(target, key + "_files")`. */
  function Folder(target: string, key: string): string {
    Join(target, key + "_files")
  }

  /** The action for a listed file of a given key: from target/name into the key's folder, under the same name. */
  function Move(target: string, key: string, name: string): Action {
    Action(Join(target, name), Join(Folder(target, key), name))
  }

  /** The listed entries that are not directories, in listing order. */
  function Kept(target: string, listing: seq<string>, dirs: set<string>): (r: seq<string>)
    ensures |r| <= |listing|
  {
    if listing == [] then []
    else
      var init := listing[..|listing| - 1];
      var n := listing[|listing| - 1];
      assert listing == init + [n];
      Kept(target, init, dirs) + (if Join(target, n) in dirs then [] else [n])
  }

  /** A listed file with its extension key. */
  datatype Item = Item(name: string, key: string)

  /** The names with their keys under `key`, in order. */
  function Items(names: seq<string>, key: string -> string): (r: seq<Item>)
    ensures |r| == |names|
  {
    if names == [] then [] else Items(names[..|names| - 1], key) + [Item(names[|names| - 1], key(names[|names| - 1]))]
  }

  /** The keys of some items, each once, in order of first appearance. */
  function KeysInOrder(items: seq<Item>): (keys: seq<string>)
    ensures |keys| <= |items|
  {
    if items == [] then []
    else
      var init := items[..|items| - 1];
      var it := items[|items| - 1];
      assert items == init + [it];
      var before := KeysInOrder(init);
      if it.key in before then before else before + [it.key]
  }

  /** The names of the items of one key, in order. */
  function GroupOf(items: seq<Item>, key: string): (g: seq<string>)
    ensures |g| <= |items|
  {
    if items == [] then []
    else
      var init := items[..|items| - 1];
      var it := items[|items| - 1];
      assert items == init + [it];
      GroupOf(init, key) + (if it.key == key then [it.name] else [])
  }

  /** The full paths of some names in the target directory. */
  function Sources(target: string, names: seq<string>): (r: seq<string>)
    ensures |r| == |names|
  {
    if names == [] then [] else Sources(target, names[..|names| - 1]) + [Join(target, names[|names| - 1])]
  }

  /** The moves of the names of one key, in order. */
  function Moves(target: string, key: string, names: seq<string>): (r: seq<Action>)
    ensures |r| == |names|
  {
    if names == [] then [] else Moves(target, key, names[..|names| - 1]) + [Move(target, key, names[|names| - 1])]
  }

  /** The actions of the groups of `keys`, one group after another. */
  function PlanFor(target: string, keys: seq<string>, items: seq<Item>): seq<Action> {
    if keys == [] then []
    else PlanFor(target, keys[..|keys| - 1], items) + Moves(target, keys[|keys| - 1], GroupOf(items, keys[|keys| - 1]))
  }

  /** `organize`'s action list: the groups in first-appearance order, each in listing order. */
  function Plan(target: string, listing: seq<string>, dirs: set<string>): seq<Action> {
    var items := Items(Kept(target, listing, dirs), ExtKey);
    PlanFor(target, KeysInOrder(items), items)
  }

  /** Kept holds exactly the listed names that are not directories. */
  lemma {:induction false} KeptMembers(target: string, listing: seq<string>, dirs: set<string>)
    ensures forall n :: n in Kept(target, listing, dirs) <==> n in listing && Join(target, n) !in dirs
  {
    if listing != [] {
      var init := listing[..|listing| - 1];
      assert listing == init + [listing[|listing| - 1]];
      KeptMembers(target, init, dirs);
    }
  }

  /** Each item is its name with that name's key. */
  lemma {:induction false} ItemsAt(names: seq<string>, key: string -> string, i: nat)
    requires i < |names|
    ensures Items(names, key)[i] == Item(names[i], key(names[i]))
  {
    if i < |names| - 1 {
      ItemsAt(names[..|names| - 1], key, i);
    }
  }

  /** The keys are distinct and are exactly the keys of the items. */
  lemma {:induction false} KeysInOrderSpec(items: seq<Item>)
    ensures forall k :: k in KeysInOrder(items) <==> exists it :: it in items && it.key == k
    ensures forall i, j :: 0 <= i < j < |KeysInOrder(items)| ==> KeysInOrder(items)[i] != KeysInOrder(items)[j]
  {
    if items != [] {
      var init := items[..|items| - 1];
      assert items == init + [items[|items| - 1]];
      KeysInOrderSpec(init);
    }
  }

  /** A group holds exactly the names of the items of its key. */
  lemma {:induction false} GroupOfMembers(items: seq<Item>, key: string)
    ensures forall n :: n in GroupOf(items, key) <==> Item(n, key) in items
  {
    if items != [] {
      var init := items[..|items| - 1];
      assert items == init + [items[|items| - 1]];
      GroupOfMembers(init, key);
    }
  }

  lemma {:induction false} SourcesAt(target: string, names: seq<string>, i: nat)
    requires i < |names|
    ensures Sources(target, names)[i] == Join(target, names[i])
  {
    if i < |names| - 1 {
      SourcesAt(target, names[..|names| - 1], i);
    }
  }

  lemma {:induction false} MovesAt(target: string, key: string, names: seq<string>, i: nat)
    requires i < |names|
    ensures Moves(target, key, names)[i] == Move(target, key, names[i])
  {
    if i < |names| - 1 {
      MovesAt(target, key, names[..|names| - 1], i);
    }
  }

  lemma KeptStep(target: string, listing: seq<string>, dirs: set<string>, i: nat)
    requires i < |listing|
    ensures Kept(target, listing[..i + 1], dirs)
      == Kept(target, listing[..i], dirs) + (if Join(target, listing[i]) in dirs then [] else [listing[i]])
  {
    assert listing[..i + 1][..i] == listing[..i];
  }

  lemma ItemNames(names: seq<string>, key: string -> string, it: Item)
    requires it in Items(names, key)
    ensures it.name in names && it.key == key(it.name)
  {
    var i :| 0 <= i < |Items(names, key)| && Items(names, key)[i] == it;
    ItemsAt(names, key, i);
  }

  lemma ItemsStep(names: seq<string>, key: string -> string, n: string)
    ensures Items(names + [n], key) == Items(names, key) + [Item(n, key(n))]
  {
    assert (names + [n])[..|names|] == names;
  }

  /** One more listed entry: it adds an item exactly when it is not a directory. */
  lemma ItemsKeptStep(target: string, listing: seq<string>, dirs: set<string>, key: string -> string, i: nat)
    requires i < |listing|
    ensures Join(target, listing[i]) in dirs ==>
      Items(Kept(target, listing[..i + 1], dirs), key) == Items(Kept(target, listing[..i], dirs), key)
    ensures Join(target, listing[i]) !in dirs ==>
      Items(Kept(target, listing[..i + 1], dirs), key) == Items(Kept(target, listing[..i], dirs), key) + [Item(listing[i], key(listing[i]))]
  {
    KeptStep(target, listing, dirs, i);
    var before := Kept(target, listing[..i], dirs);
    if Join(target, listing[i]) !in dirs {
      ItemsStep(before, key, listing[i]);
      assert Kept(target, listing[..i + 1], dirs) == before + [listing[i]];
    } else {
      assert Kept(target, listing[..i + 1], dirs) == before;
    }
  }

  /** One more item: its key joins the keys if new, and its name joins its key's group. */
  lemma GroupStep(target: string, items: seq<Item>, it: Item)
    ensures KeysInOrder(items + [it]) ==
      (if it.key in KeysInOrder(items) then KeysInOrder(items) else KeysInOrder(items) + [it.key])
    ensures forall k {:trigger GroupOf(items + [it], k)} :: k != it.key ==> GroupOf(items + [it], k) == GroupOf(items, k)
    ensures Sources(target, GroupOf(items + [it], it.key)) == Sources(target, GroupOf(items, it.key)) + [Join(target, it.name)]
  {
    assert (items + [it])[..|items|] == items;
    var g := GroupOf(items, it.key);
    assert (g + [it.name])[..|g|] == g;
  }

  /** The moves of a group are exactly the moves of its names. */
  lemma {:induction false} MovesMembers(target: string, key: string, names: seq<string>)
    ensures forall a :: a in Moves(target, key, names) <==> exists n :: n in names && a == Move(target, key, n)
  {
    if names != [] {
      var init := names[..|names| - 1];
      assert names == init + [names[|names| - 1]];
      MovesMembers(target, key, init);
    }
  }

  /** An action is planned for some keys exactly when it moves a name of one of their groups. */
  lemma {:induction false} PlanForMembers(target: string, keys: seq<string>, items: seq<Item>)
    ensures forall a :: a in PlanFor(target, keys, items) <==>
      exists k, n :: k in keys && n in GroupOf(items, k) && a == Move(target, k, n)
  {
    if keys != [] {
      var init := keys[..|keys| - 1];
      var last := keys[|keys| - 1];
      assert keys == init + [last];
      PlanForMembers(target, init, items);
      MovesMembers(target, last, GroupOf(items, last));
      forall a | exists k, n :: k in keys && n in GroupOf(items, k) && a == Move(target, k, n)
        ensures a in PlanFor(target, keys, items)
      {
        var k, n :| k in keys && n in GroupOf(items, k) && a == Move(target, k, n);
        if k != last {
          assert k in init;
        }
      }
    }
  }

  /** Every name of the items has an item with its own key. */
  lemma ItemOfName(names: seq<string>, key: string -> string, i: nat)
    requires i < |names|
    ensures Item(names[i], key(names[i])) in Items(names, key)
  {
    ItemsAt(names, key, i);
  }

  /** The plan moves each kept name, under its own key, and nothing else. */
  lemma PlanForItemsMembers(target: string, names: seq<string>, key: string -> string)
    ensures var items := Items(names, key);
      forall a :: a in PlanFor(target, KeysInOrder(items), items) <==>
        exists n :: n in names && a == Move(target, key(n), n)
  {
    var items := Items(names, key);
    PlanForMembers(target, KeysInOrder(items), items);
    KeysInOrderSpec(items);
    forall a | a in PlanFor(target, KeysInOrder(items), items)
      ensures exists n :: n in names && a == Move(target, key(n), n)
    {
      var k, n :| k in KeysInOrder(items) && n in GroupOf(items, k) && a == Move(target, k, n);
      GroupOfMembers(items, k);
      ItemNames(names, key, Item(n, k));
    }
    forall a | exists n :: n in names && a == Move(target, key(n), n)
      ensures a in PlanFor(target, KeysInOrder(items), items)
    {
      var n :| n in names && a == Move(target, key(n), n);
      var i :| 0 <= i < |names| && names[i] == n;
      ItemOfName(names, key, i);
      GroupOfMembers(items, key(n));
      assert n in GroupOf(items, key(n));
    }
  }

  /** One more item adds one action to the plan of distinct keys when its key is among them, and none otherwise. */
  lemma {:induction false} PlanForSnocItem(target: string, keys: seq<string>, items: seq<Item>, it: Item)
    requires forall i, j :: 0 <= i < j < |keys| ==> keys[i] != keys[j]
    ensures |PlanFor(target, keys, items + [it])| == |PlanFor(target, keys, items)| + (if it.key in keys then 1 else 0)
  {
    if keys != [] {
      var init := keys[..|keys| - 1];
      var last := keys[|keys| - 1];
      assert keys == init + [last];
      PlanForSnocItem(target, init, items, it);
      assert (items + [it])[..|items|] == items;
      assert it.key in keys <==> it.key in init || it.key == last;
      if it.key == last {
        assert forall i :: 0 <= i < |init| ==> init[i] != keys[|keys| - 1];
      }
    }
  }

  /** The plan has one action per item. */
  lemma {:induction false} PlanLength(target: string, items: seq<Item>)
    ensures |PlanFor(target, KeysInOrder(items), items)| == |items|
  {
    if items != [] {
      var init := items[..|items| - 1];
      var it := items[|items| - 1];
      assert items == init + [it];
      PlanLength(target, init);
      var keys := KeysInOrder(init);
      KeysInOrderSpec(init);
      GroupStep(target, init, it);
      PlanForSnocItem(target, keys, init, it);
      if it.key !in keys {
        GroupOfAbsent(init, it.key);
        assert (keys + [it.key])[..|keys|] == keys;
        assert (init + [it])[..|init|] == init;
      }
    }
  }

  /** PlanSpec for any key function. */
  lemma KeptPlanSpec(target: string, listing: seq<string>, dirs: set<string>, key: string -> string)
    ensures var items := Items(Kept(target, listing, dirs), key);
      && |PlanFor(target, KeysInOrder(items), items)| == |Kept(target, listing, dirs)|
      && forall a :: a in PlanFor(target, KeysInOrder(items), items) <==>
           exists n :: n in listing && Join(target, n) !in dirs && a == Move(target, key(n), n)
  {
    var kept := Kept(target, listing, dirs);
    PlanLength(target, Items(kept, key));
    PlanForItemsMembers(target, kept, key);
    KeptMembers(target, listing, dirs);
  }

  /** Joining a plain name adds it after the directory and at most one separator. */
  lemma JoinNameLength(a: string, b: string)
    requires IsName(b)
    ensures |Join(a, b)| == |b| + (if a == [] || a[|a| - 1] == '/' then |a| else |a| + 1)
  {
    assert b[0] != '/' by { assert b[0] in b; }
  }

  /** A folder name is a plain name when its key is free of separators. */
  lemma FolderNameIsName(key: string)
    requires '/' !in key
    ensures IsName(key + "_files")
  {
    var k := key + "_files";
    forall i | 0 <= i < |k| ensures k[i] != '/' {
      if i < |key| {
        assert k[i] == key[i] && key[i] in key;
      }
    }
  }

  /** Two moves of plain names under separator-free keys: a source is never a destination, and either end determines the name. */
  lemma MovePair(target: string, kn: string, n: string, km: string, m: string)
    requires IsName(n) && IsName(m) && '/' !in kn && '/' !in km
    ensures Move(target, kn, n).source != Move(target, km, m).dest
    ensures Move(target, kn, n).source == Move(target, km, m).source ==> n == m
    ensures Move(target, kn, n).dest == Move(target, km, m).dest ==> n == m
  {
    FolderNameIsName(km);
    var k := km + "_files";
    var folder := Folder(target, km);
    BaseNameOfJoin(target, n);
    BaseNameOfJoin(target, m);
    BaseNameOfJoin(folder, m);
    BaseNameOfJoin(Folder(target, kn), n);
    JoinNameLength(target, n);
    JoinNameLength(target, k);
    assert folder != [] && folder[|folder| - 1] == 's' by {
      assert folder == Join(target, k);
      assert k[|k| - 1] == 's';
    }
    JoinNameLength(folder, m);
  }

  /** With listed names and separator-free keys, the plan's actions are separate. */
  lemma KeptPlanSeparate(target: string, listing: seq<string>, dirs: set<string>, key: string -> string)
    requires forall n :: n in listing ==> IsName(n) && '/' !in key(n)
    ensures var items := Items(Kept(target, listing, dirs), key);
      Separate(PlanFor(target, KeysInOrder(items), items))
  {
    var items := Items(Kept(target, listing, dirs), key);
    var plan := PlanFor(target, KeysInOrder(items), items);
    KeptPlanSpec(target, listing, dirs, key);
    forall a, b | a in plan && b in plan
      ensures a.source != b.dest && (a.source == b.source ==> a == b) && (a.dest == b.dest ==> a == b)
    {
      var n :| n in listing && Join(target, n) !in dirs && a == Move(target, key(n), n);
      var m :| m in listing && Join(target, m) !in dirs && b == Move(target, key(m), m);
      MovePair(target, key(n), n, key(m), m);
    }
  }

  /** Under separate actions each kept file ends up at its destination, and its source is gone. */
  lemma KeptPlanRelocates(files: map<string, Bytes>, target: string, listing: seq<string>, dirs: set<string>,
                          key: string -> string, n: string)
    requires forall m :: m in listing ==> IsName(m) && '/' !in key(m)
    requires n in listing && Join(target, n) !in dirs
    ensures var items := Items(Kept(target, listing, dirs), key);
      var after := AfterMoves(files, PlanFor(target, KeysInOrder(items), items));
      && Join(target, n) !in after
      && (Join(target, n) in files ==>
            Join(Folder(target, key(n)), n) in after && after[Join(Folder(target, key(n)), n)] == files[Join(target, n)])
  {
    var items := Items(Kept(target, listing, dirs), key);
    KeptPlanSpec(target, listing, dirs, key);
    KeptPlanSeparate(target, listing, dirs, key);
    AfterMovesRelocates(files, PlanFor(target, KeysInOrder(items), items), Move(target, key(n), n));
  }

  /**
   * After a real run, every listed file that is not a directory is gone from the target and
   * its contents are in the folder of its extension key, under the same name.
   */
  lemma OrganizeRelocates(files: map<string, Bytes>, target: string, listing: seq<string>, dirs: set<string>, n: string)
    requires forall m :: m in listing ==> IsName(m)
    requires n in listing && Join(target, n) !in dirs
    ensures var after := AfterMoves(files, Plan(target, listing, dirs));
      && Join(target, n) !in after
      && (Join(target, n) in files ==>
            Join(Folder(target, ExtKey(n)), n) in after && after[Join(Folder(target, ExtKey(n)), n)] == files[Join(target, n)])
  {
    forall m | m in listing ensures IsName(m) && '/' !in ExtKey(m) {
      ExtKeyNoSlash(m);
    }
    KeptPlanRelocates(files, target, listing, dirs, ExtKey, n);
  }

  /**
   * `organize`'s actions: exactly one move for each listed entry that is not a directory, from
   * target/name into the folder of its extension key under the same name.
   */
  lemma PlanSpec(target: string, listing: seq<string>, dirs: set<string>)
    ensures |Plan(target, listing, dirs)| == |Kept(target, listing, dirs)|
    ensures forall a :: a in Plan(target, listing, dirs) <==>
      exists n :: n in listing && Join(target, n) !in dirs && a == Move(target, ExtKey(n), n)
  {
    KeptPlanSpec(target, listing, dirs, ExtKey);
  }

  /** The folders of some keys. */
  function FoldersOf(target: string, keys: seq<string>): set<string> {
    set k | k in keys :: Folder(target, k)
  }

  /** `shutil.move(source, dest)` on the file map: the contents leave the source for the destination. */
  function MoveFile(files: map<string, Bytes>, a: Action): (r: map<string, Bytes>)
    ensures a.source !in files ==> r == files
  {
    if a.source in files then (files - {a.source})[a.dest := files[a.source]] else files
  }

  /** A move takes the contents from the source to the destination and leaves every other file alone. */
  lemma MoveFileEffect(files: map<string, Bytes>, a: Action)
    requires a.source in files && a.source != a.dest
    ensures var r := MoveFile(files, a);
      && a.dest in r && r[a.dest] == files[a.source] && a.source !in r
      && forall p :: p in files && p != a.source && p != a.dest ==> p in r && r[p] == files[p]
  {
  }

  /** The file map after the moves, one after another. */
  function AfterMoves(files: map<string, Bytes>, actions: seq<Action>): map<string, Bytes> {
    if actions == [] then files
    else MoveFile(AfterMoves(files, actions[..|actions| - 1]), actions[|actions| - 1])
  }

  /** No action's source is any action's destination, and sources and destinations each name one action. */
  ghost predicate Separate(actions: seq<Action>) {
    forall a, b :: a in actions && b in actions ==>
      a.source != b.dest && (a.source == b.source ==> a == b) && (a.dest == b.dest ==> a == b)
  }

  /** A path no action touches keeps its state. */
  lemma {:induction false} AfterMovesFrame(files: map<string, Bytes>, actions: seq<Action>, p: string)
    requires forall a :: a in actions ==> p != a.source && p != a.dest
    ensures p in AfterMoves(files, actions) <==> p in files
    ensures p in files ==> AfterMoves(files, actions)[p] == files[p]
  {
    if actions != [] {
      var init := actions[..|actions| - 1];
      assert actions == init + [actions[|actions| - 1]];
      AfterMovesFrame(files, init, p);
    }
  }

  /**
   * When the actions are separate, each one's source is gone afterwards and, when it existed,
   * its contents are at the destination.
   */
  lemma {:induction false} AfterMovesRelocates(files: map<string, Bytes>, actions: seq<Action>, a: Action)
    requires Separate(actions) && a in actions
    ensures a.source !in AfterMoves(files, actions)
    ensures a.source in files ==> a.dest in AfterMoves(files, actions) && AfterMoves(files, actions)[a.dest] == files[a.source]
  {
    var init := actions[..|actions| - 1];
    var last := actions[|actions| - 1];
    assert actions == init + [last];
    assert Separate(init) by {
      forall x | x in init ensures x in actions { }
    }
    var m := AfterMoves(files, init);
    if a in init {
      AfterMovesRelocates(files, init, a);
      assert last in actions;
      if last == a {
        assert MoveFile(m, last) == m;
      } else {
        assert last.source != a.dest && last.dest != a.dest && last.dest != a.source;
      }
    } else {
      assert a == last;
      forall b | b in init ensures a.source != b.source && a.source != b.dest {
        assert b in actions;
      }
      AfterMovesFrame(files, init, a.source);
      if a.source in files {
        MoveFileEffect(m, a);
      }
    }
  }

  /** What `os.listdir(target)` reports: distinct plain names of entries that exist. */
  predicate Listing(disk: Disk, target: string, listing: seq<string>)
    reads disk
  {
    && (forall n :: n in listing ==> IsName(n) && (Join(target, n) in disk.files || Join(target, n) in disk.dirs))
    && (forall i, j :: 0 <= i < j < |listing| ==> listing[i] != listing[j])
  }

  /** A key no item has has an empty group. */
  lemma {:induction false} GroupOfAbsent(items: seq<Item>, key: string)
    requires forall it :: it in items ==> it.key != key
    ensures GroupOf(items, key) == []
  {
    if items != [] {
      var init := items[..|items| - 1];
      assert items == init + [items[|items| - 1]];
      GroupOfAbsent(init, key);
    }
  }

  /** Every key of the items has a non-empty group. */
  lemma {:induction false} GroupOfPresent(items: seq<Item>, key: string)
    requires key in KeysInOrder(items)
    ensures GroupOf(items, key) != []
  {
    KeysInOrderSpec(items);
    var it :| it in items && it.key == key;
    GroupOfMembers(items, key);
    assert it == Item(it.name, key);
    assert it.name in GroupOf(items, key);
  }

  lemma GroupNames(items: seq<Item>, key: string)
    requires forall it :: it in items ==> IsName(it.name)
    ensures forall n :: n in GroupOf(items, key) ==> IsName(n)
  {
    GroupOfMembers(items, key);
    forall n | n in GroupOf(items, key) ensures IsName(n) {
      assert Item(n, key) in items;
    }
  }

  /** Listed names are plain names, so every item's name is one. */
  lemma ItemNamesAreNames(target: string, listing: seq<string>, dirs: set<string>, key: string -> string)
    requires forall n :: n in listing ==> IsName(n)
    ensures forall it :: it in Items(Kept(target, listing, dirs), key) ==> IsName(it.name)
  {
    KeptMembers(target, listing, dirs);
    forall it | it in Items(Kept(target, listing, dirs), key) ensures IsName(it.name) {
      ItemNames(Kept(target, listing, dirs), key, it);
    }
  }

  lemma FoldersOfStep(target: string, keys: seq<string>, i: nat)
    requires i < |keys|
    ensures FoldersOf(target, keys[..i + 1]) == FoldersOf(target, keys[..i]) + {Folder(target, keys[i])}
  {
    assert keys[..i + 1] == keys[..i] + [keys[i]];
    assert forall x :: x in keys[..i + 1] <==> x in keys[..i] || x == keys[i];
  }

  lemma PlanForStep(target: string, keys: seq<string>, items: seq<Item>, i: nat)
    requires i < |keys|
    ensures PlanFor(target, keys[..i + 1], items) == PlanFor(target, keys[..i], items) + Moves(target, keys[i], GroupOf(items, keys[i]))
  {
    assert keys[..i + 1][..i] == keys[..i];
  }

  /** Moving a + b is moving a, then b. */
  lemma {:induction false} AfterMovesConcat(files: map<string, Bytes>, a: seq<Action>, b: seq<Action>)
    ensures AfterMoves(files, a + b) == AfterMoves(AfterMoves(files, a), b)
  {
    if b == [] {
      assert a + b == a;
    } else {
      var init := b[..|b| - 1];
      assert (a + b)[..|a + b| - 1] == a + init;
      AfterMovesConcat(files, a, init);
    }
  }

  /** A key that is not among the keys of the items has an empty group. */
  lemma GroupOfNewKey(items: seq<Item>, key: string)
    requires key !in KeysInOrder(items)
    ensures GroupOf(items, key) == []
  {
    KeysInOrderSpec(items);
    GroupOfAbsent(items, key);
  }

  /** The mapping `setdefault(key, []).append(full)` builds over some items, one item after another. */
  function GroupMap(target: string, items: seq<Item>): map<string, seq<string>> {
    if items == [] then map[]
    else
      var m := GroupMap(target, items[..|items| - 1]);
      var it := items[|items| - 1];
      m[it.key := (if it.key in m then m[it.key] else []) + [Join(target, it.name)]]
  }

  /** One more item: its path is appended to its key's list, which starts empty for a new key. */
  lemma GroupMapStep(target: string, items: seq<Item>, it: Item)
    ensures var m := GroupMap(target, items);
      GroupMap(target, items + [it]) == m[it.key := (if it.key in m then m[it.key] else []) + [Join(target, it.name)]]
  {
    assert (items + [it])[..|items|] == items;
  }

  /** The mapping's keys are exactly the keys of the items. */
  lemma {:induction false} GroupMapKeys(target: string, items: seq<Item>)
    ensures forall k :: k in GroupMap(target, items) <==> k in KeysInOrder(items)
  {
    if items != [] {
      var init := items[..|items| - 1];
      var it := items[|items| - 1];
      assert items == init + [it];
      GroupMapKeys(target, init);
      GroupStep(target, init, it);
      GroupMapStep(target, init, it);
    }
  }

  /** Each key's list holds the full paths of that key's group, in listing order. */
  lemma {:induction false} GroupMapPaths(target: string, items: seq<Item>)
    ensures forall k :: k in GroupMap(target, items) ==> GroupMap(target, items)[k] == Sources(target, GroupOf(items, k))
  {
    if items != [] {
      var init := items[..|items| - 1];
      var it := items[|items| - 1];
      assert items == init + [it];
      var m := GroupMap(target, init);
      GroupMapPaths(target, init);
      GroupMapKeys(target, init);
      if it.key !in m {
        GroupOfNewKey(init, it.key);
      }
      GroupStep(target, init, it);
      GroupMapStep(target, init, it);
      forall k | k in GroupMap(target, items) ensures GroupMap(target, items)[k] == Sources(target, GroupOf(items, k)) {
        if k != it.key {
          assert GroupMap(target, items)[k] == m[k];
        }
      }
    }
  }

  /** The second loop finds every key of the key list in the mapping, with its group's paths. */
  lemma GroupMapAtKeys(target: string, items: seq<Item>)
    ensures forall i :: 0 <= i < |KeysInOrder(items)| ==>
      KeysInOrder(items)[i] in GroupMap(target, items)
      && GroupMap(target, items)[KeysInOrder(items)[i]] == Sources(target, GroupOf(items, KeysInOrder(items)[i]))
  {
    GroupMapKeys(target, items);
    GroupMapPaths(target, items);
    var keys := KeysInOrder(items);
    forall i | 0 <= i < |keys| ensures keys[i] in GroupMap(target, items) {
      assert keys[i] in keys;
    }
  }

  /** One more listed entry: the key list and the mapping of the items one entry further. */
  lemma GroupByKeyStep(target: string, items: seq<Item>, keys: seq<string>, mapping: map<string, seq<string>>, it: Item)
    requires keys == KeysInOrder(items) && mapping == GroupMap(target, items)
    ensures (if it.key in mapping then keys else keys + [it.key]) == KeysInOrder(items + [it])
    ensures mapping[it.key := (if it.key in mapping then mapping[it.key] else []) + [Join(target, it.name)]] == GroupMap(target, items + [it])
  {
    GroupMapKeys(target, items);
    GroupStep(target, items, it);
    GroupMapStep(target, items, it);
  }

  /**
   * The first loop of `organize`: the mapping from key to full paths, its keys in insertion
   * order, built from the listed entries that are not directories. `key` is the extension
   * key of file_organizer.py:19 (`organize` passes ExtKey).
   */
  method GroupByKey(target: string, listing: seq<string>, dirs: set<string>, key: string -> string)
    returns (keys: seq<string>, mapping: map<string, seq<string>>)
    ensures var items := Items(Kept(target, listing, dirs), key);
      keys == KeysInOrder(items) && mapping == GroupMap(target, items)
  {
    keys, mapping := [], map[];
    ghost var items: seq<Item> := [];
    var i := 0;
    while i < |listing|
      invariant 0 <= i <= |listing|
      invariant items == Items(Kept(target, listing[..i], dirs), key)
      invariant keys == KeysInOrder(items) && mapping == GroupMap(target, items)
    {
      var fname := listing[i];
      var full := Join(target, fname);
      ItemsKeptStep(target, listing, dirs, key, i);
      if full !in dirs {
        var ext := key(fname);
        GroupByKeyStep(target, items, keys, mapping, Item(fname, ext));
        // setdefault(ext, []) then append: a new key starts an empty list and joins the key order
        var group := if ext in mapping then mapping[ext] else [];
        if ext !in mapping {
          keys := keys + [ext];
        }
        mapping := mapping[ext := group + [full]];
        items := items + [Item(fname, ext)];
      }
      i := i + 1;
    }
    assert listing[..i] == listing;
  }

  /** The inner loop's action for the j-th path is the move of the j-th name, appended to the moves before it. */
  lemma MoveGroupStep(target: string, key: string, names: seq<string>, paths: seq<string>, j: nat)
    requires paths == Sources(target, names) && forall n :: n in names ==> IsName(n)
    requires j < |names|
    ensures Action(paths[j], Join(Folder(target, key), BaseName(paths[j]))) == Move(target, key, names[j])
    ensures Moves(target, key, names[..j + 1]) == Moves(target, key, names[..j]) + [Move(target, key, names[j])]
  {
    SourcesAt(target, names, j);
    assert names[j] in names;
    BaseNameOfJoin(target, names[j]);
    assert names[..j + 1][..j] == names[..j];
  }

  /** Moving one more file after some moves. */
  lemma AfterMovesSnoc(files: map<string, Bytes>, actions: seq<Action>, a: Action)
    ensures AfterMoves(files, actions + [a]) == MoveFile(AfterMoves(files, actions), a)
  {
    assert (actions + [a])[..|actions|] == actions;
  }

  /**
   * The inner loop of `organize` for one key: each path of the group is moved into the
   * key's folder under its base name, the folder being created first.
   */
  method MoveGroup(disk: Disk, target: string, key: string, paths: seq<string>, ghost names: seq<string>, dryRun: bool)
    returns (moves: seq<Action>)
    requires paths == Sources(target, names) && forall n :: n in names ==> IsName(n)
    modifies disk
    ensures moves == Moves(target, key, names)
    ensures dryRun ==> disk.files == old(disk.files) && disk.dirs == old(disk.dirs)
    ensures !dryRun ==> (disk.files == AfterMoves(old(disk.files), moves)
                         && disk.dirs == old(disk.dirs) + (if names == [] then {} else {Folder(target, key)}))
  {
    var folder := Folder(target, key);
    moves := [];
    var j := 0;
    while j < |paths|
      invariant 0 <= j <= |paths|
      invariant moves == Moves(target, key, names[..j])
      invariant dryRun ==> disk.files == old(disk.files) && disk.dirs == old(disk.dirs)
      invariant !dryRun ==> (disk.files == AfterMoves(old(disk.files), moves)
                             && disk.dirs == old(disk.dirs) + (if j == 0 then {} else {folder}))
    {
      var f := paths[j];
      var dest := Join(folder, BaseName(f));
      MoveGroupStep(target, key, names, paths, j);
      AfterMovesSnoc(old(disk.files), moves, Action(f, dest));
      moves := moves + [Action(f, dest)];
      if !dryRun {
        disk.dirs := disk.dirs + {folder};
        disk.files := MoveFile(disk.files, Action(f, dest));
      }
      j := j + 1;
    }
    assert names[..j] == names;
  }

  /** What the second loop needs about its ki-th key: a non-empty group of plain names, and the plan and folders one key further. */
  lemma MoveGroupsStep(target: string, keys: seq<string>, items: seq<Item>, ki: nat)
    requires keys == KeysInOrder(items) && ki < |keys|
    requires forall it :: it in items ==> IsName(it.name)
    ensures GroupOf(items, keys[ki]) != []
    ensures forall n :: n in GroupOf(items, keys[ki]) ==> IsName(n)
    ensures PlanFor(target, keys[..ki + 1], items) == PlanFor(target, keys[..ki], items) + Moves(target, keys[ki], GroupOf(items, keys[ki]))
    ensures FoldersOf(target, keys[..ki + 1]) == FoldersOf(target, keys[..ki]) + {Folder(target, keys[ki])}
  {
    assert keys[ki] in keys;
    GroupOfPresent(items, keys[ki]);
    GroupNames(items, keys[ki]);
    PlanForStep(target, keys, items, ki);
    FoldersOfStep(target, keys, ki);
  }

  /**
   * The second loop of `organize`: the groups in the mapping's key order, each moved by
   * MoveGroup; the actions are the plan of the items.
   */
  method MoveGroups(disk: Disk, target: string, keys: seq<string>, mapping: map<string, seq<string>>,
                    ghost items: seq<Item>, dryRun: bool)
    returns (actions: seq<Action>)
    requires keys == KeysInOrder(items)
    requires forall i :: 0 <= i < |keys| ==> keys[i] in mapping && mapping[keys[i]] == Sources(target, GroupOf(items, keys[i]))
    requires forall it :: it in items ==> IsName(it.name)
    modifies disk
    ensures actions == PlanFor(target, keys, items)
    ensures dryRun ==> disk.files == old(disk.files) && disk.dirs == old(disk.dirs)
    ensures !dryRun ==> (disk.files == AfterMoves(old(disk.files), actions)
                         && disk.dirs == old(disk.dirs) + FoldersOf(target, keys))
  {
    actions := [];
    var ki := 0;
    while ki < |keys|
      invariant 0 <= ki <= |keys|
      invariant actions == PlanFor(target, keys[..ki], items)
      invariant dryRun ==> disk.files == old(disk.files) && disk.dirs == old(disk.dirs)
      invariant !dryRun ==> (disk.files == AfterMoves(old(disk.files), actions)
                             && disk.dirs == old(disk.dirs) + FoldersOf(target, keys[..ki]))
    {
      var key := keys[ki];
      MoveGroupsStep(target, keys, items, ki);
      var moves := MoveGroup(disk, target, key, mapping[key], GroupOf(items, key), dryRun);
      AfterMovesConcat(old(disk.files), actions, moves);
      actions := actions + moves;
      ki := ki + 1;
    }
    assert keys[..ki] == keys;
  }

  /**
   * `organize(target, dry_run)`: fails when the target is not a directory; otherwise returns
   * the plan, whatever `dry_run` is. A dry run changes nothing; otherwise every action's
   * source is moved to its destination, in plan order, after its folder is created.
   */
  method Organize(disk: Disk, target: string, listing: seq<string>, dryRun: bool) returns (r: Result<seq<Action>>)
    requires Listing(disk, target, listing)
    modifies disk
    ensures target !in old(disk.dirs) ==> r == Err(NotADirectory)
    ensures target in old(disk.dirs) ==> r == Ok(Plan(target, listing, old(disk.dirs)))
    ensures target !in old(disk.dirs) || dryRun ==> disk.files == old(disk.files) && disk.dirs == old(disk.dirs)
    ensures target in old(disk.dirs) && !dryRun ==>
      && disk.files == AfterMoves(old(disk.files), Plan(target, listing, old(disk.dirs)))
      && disk.dirs == old(disk.dirs) + FoldersOf(target, KeysInOrder(Items(Kept(target, listing, old(disk.dirs)), ExtKey)))
  {
    if target !in disk.dirs {
      return Err(NotADirectory);
    }
    var keys, mapping := GroupByKey(target, listing, disk.dirs, ExtKey);
    ghost var items := Items(Kept(target, listing, disk.dirs), ExtKey);
    ItemNamesAreNames(target, listing, disk.dirs, ExtKey);
    GroupMapAtKeys(target, items);
    var actions := MoveGroups(disk, target, keys, mapping, items, dryRun);
    return Ok(actions);
  }
}
