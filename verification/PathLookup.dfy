/**
  The directory prefilter of command lookup. Dropping directories that list no name
  starting with the command leaves the first hit where it was exactly if that hit is listed.

  What the file system and the resolver answer are parameters that do not change during a
  lookup; case folding is any function.
*/
module PathLookup {
  import opened Wrappers

  const MAX_DIRECTORIES: nat := 128

  // ----- the order of strings -----------------------------------------------------------------

  predicate AtMost(a: string, b: string) {
    a == [] || (b != [] && (a[0] < b[0] || (a[0] == b[0] && AtMost(a[1..], b[1..]))))
  }

  lemma {:induction false} AtMostTransitive(a: string, b: string, c: string)
    requires AtMost(a, b) && AtMost(b, c)
    ensures AtMost(a, c)
  {
    if a != [] && a[0] == b[0] == c[0] { AtMostTransitive(a[1..], b[1..], c[1..]); }
  }

  lemma {:induction false} AtMostTotal(a: string, b: string)
    ensures AtMost(a, b) || AtMost(b, a)
  {
    if a != [] && b != [] && a[0] == b[0] { AtMostTotal(a[1..], b[1..]); }
  }

  lemma {:induction false} PrefixAtMost(p: string, s: string)
    requires p <= s
    ensures AtMost(p, s)
  {
    if p != [] { PrefixAtMost(p[1..], s[1..]); }
  }

  /** Between a prefix and a string that starts with it, every string starts with it. */
  lemma {:induction false} BetweenStartsWith(p: string, m: string, s: string)
    requires p <= s && AtMost(p, m) && AtMost(m, s)
    ensures p <= m
  {
    if p != [] {
      BetweenStartsWith(p[1..], m[1..], s[1..]);
      assert p == [p[0]] + p[1..] && m == [m[0]] + m[1..];
    }
  }

  predicate Ascending(a: seq<string>) { forall i, j :: 0 <= i <= j < |a| ==> AtMost(a[i], a[j]) }

  // ----- sorted names -------------------------------------------------------------------------

  /** The first position whose string is not below `x`. */
  method BisectLeft(a: seq<string>, x: string) returns (position: nat)
    requires Ascending(a)
    ensures position <= |a|
    ensures forall i :: 0 <= i < position ==> !AtMost(x, a[i])
    ensures forall i :: position <= i < |a| ==> AtMost(x, a[i])
  {
    var low, high := 0, |a|;
    while low < high
      invariant 0 <= low <= high <= |a|
      invariant forall i :: 0 <= i < low ==> !AtMost(x, a[i])
      invariant forall i :: high <= i < |a| ==> AtMost(x, a[i])
    {
      var mid := (low + high) / 2;
      if AtMost(x, a[mid]) {
        forall i | mid <= i < |a| ensures AtMost(x, a[i]) { AtMostTransitive(x, a[mid], a[i]); }
        high := mid;
      } else {
        forall i | 0 <= i <= mid ensures !AtMost(x, a[i]) {
          if AtMost(x, a[i]) { AtMostTransitive(x, a[i], a[mid]); }
        }
        low := mid + 1;
      }
    }
    return low;
  }

  /** The string at the bisection point answers for the whole list. */
  lemma FirstNotBelowDecides(a: seq<string>, prefix: string, position: nat)
    requires Ascending(a) && position <= |a|
    requires forall i :: 0 <= i < position ==> !AtMost(prefix, a[i])
    requires forall i :: position <= i < |a| ==> AtMost(prefix, a[i])
    ensures (position < |a| && prefix <= a[position]) <==> exists i :: 0 <= i < |a| && prefix <= a[i]
  {
    if exists i :: 0 <= i < |a| && prefix <= a[i] {
      var i :| 0 <= i < |a| && prefix <= a[i];
      PrefixAtMost(prefix, a[i]);
      BetweenStartsWith(prefix, a[position], a[i]);
    }
  }

  function Insert(x: string, a: seq<string>): (r: seq<string>)
    ensures forall s :: s in r <==> s == x || s in a
  {
    if a == [] || AtMost(x, a[0]) then [x] + a else [a[0]] + Insert(x, a[1..])
  }

  lemma {:induction false} InsertAscends(x: string, a: seq<string>)
    requires Ascending(a)
    ensures Ascending(Insert(x, a))
  {
    if a == [] {
      AtMostTotal(x, x);
    } else if AtMost(x, a[0]) {
      AtMostTotal(x, x);
      forall j | 0 <= j < |a| ensures AtMost(x, a[j]) { AtMostTransitive(x, a[0], a[j]); }
    } else {
      AtMostTotal(x, a[0]);
      AtMostTotal(a[0], a[0]);
      InsertAscends(x, a[1..]);
      var r := Insert(x, a[1..]);
      forall j | 0 <= j < |r| ensures AtMost(a[0], r[j]) {
        assert r[j] in r;
        if r[j] != x {
          var i :| 0 <= i < |a[1..]| && a[1..][i] == r[j];
          assert a[i + 1] == r[j];
        }
      }
    }
  }

  method SortedNames(names: set<string>, fold: string -> string) returns (a: seq<string>)
    ensures Ascending(a) && forall s :: s in a <==> exists name :: name in names && fold(name) == s
  {
    a := [];
    var left := names;
    while left != {}
      invariant left <= names && Ascending(a)
      invariant forall s :: s in a <==> exists name :: name in names && name !in left && fold(name) == s
      decreases |left|
    {
      var name :| name in left;
      InsertAscends(fold(name), a);
      a := Insert(fold(name), a);
      left := left - {name};
    }
  }

  // ----- lookup -------------------------------------------------------------------------------

  type Hit = string

  /** What is on disk: the names a directory lists, if it may be listed, and what probing it for a command finds. */
  datatype Disk = Disk(listing: string -> Option<set<string>>, probe: (string, string) -> Option<Hit>,
    here: string -> Option<Hit>)

  predicate Mentions(names: set<string>, command: string, fold: string -> string) {
    exists name :: name in names && fold(command) <= fold(name)
  }

  function FirstHit(disk: Disk, directories: seq<string>, command: string): Option<Hit> {
    if directories == [] then None
    else if disk.probe(directories[0], command).Some? then disk.probe(directories[0], command)
    else FirstHit(disk, directories[1..], command)
  }

  /** The resolver: the current directory where that is searched, then the path in order. */
  function Resolve(disk: Disk, directories: seq<string>, command: string): Option<Hit> {
    if disk.here(command).Some? then disk.here(command) else FirstHit(disk, directories, command)
  }

  predicate Possible(disk: Disk, d: string, command: string, fold: string -> string) {
    disk.listing(d).None? || Mentions(disk.listing(d).value, command, fold)
  }

  function Selected(disk: Disk, directories: seq<string>, command: string, fold: string -> string): seq<string> {
    if directories == [] then []
    else
      var last := directories[|directories| - 1];
      Selected(disk, directories[..|directories| - 1], command, fold) + if Possible(disk, last, command, fold)
        then [last] else []
  }

  // ----- when the filter agrees with the resolver ---------------------------------------------

  /** The directories that are probed: the possible ones, or the first if there are none. */
  function Kept(disk: Disk, directories: seq<string>, command: string, fold: string -> string): seq<string>
    requires directories != []
  {
    var selected := Selected(disk, directories, command, fold);
    if selected == [] then directories[..1] else selected
  }

  lemma {:induction false} SelectedAre(disk: Disk, directories: seq<string>, command: string, fold: string -> string)
    ensures forall d :: d in Selected(disk, directories, command, fold) <==>
            d in directories && Possible(disk, d, command, fold)
    decreases |directories|
  {
    hide Possible;
    if directories != [] {
      var n := |directories| - 1;
      assert directories == directories[..n] + [directories[n]];
      SelectedAre(disk, directories[..n], command, fold);
    }
  }

  lemma {:induction false} NoneSelected(disk: Disk, directories: seq<string>, command: string, fold: string -> string)
    requires forall d :: d in directories ==> !Possible(disk, d, command, fold)
    ensures Selected(disk, directories, command, fold) == []
  {
    hide Possible;
    if directories != [] { NoneSelected(disk, directories[..|directories| - 1], command, fold); }
  }

  lemma {:induction false} SelectedAppend(disk: Disk, d: string, directories: seq<string>, command: string,
                                          fold: string -> string)
    ensures Selected(disk, [d] + directories, command, fold) ==
            (if Possible(disk, d, command, fold) then [d] else []) + Selected(disk, directories, command, fold)
    decreases |directories|
  {
    hide Possible;
    var all := [d] + directories;
    if directories == [] {
      assert all[..0] == [] && all == [d];
    } else {
      var n := |directories| - 1;
      assert all[..n + 1] == [d] + directories[..n] && all[n + 1] == directories[n];
      SelectedAppend(disk, d, directories[..n], command, fold);
    }
  }

  /** The directory cannot be listed, or one of its names starts with the command, case aside. */
  ghost predicate MayList(disk: Disk, d: string, command: string, fold: string -> string) {
    match disk.listing(d)
    case None => true
    case Some(names) => exists name :: name in names && fold(command) <= fold(name)
  }

  lemma PossibleIff(disk: Disk, command: string, fold: string -> string)
    ensures forall d :: Possible(disk, d, command, fold) <==> MayList(disk, d, command, fold)
  {
  }

  /** The first directory that may list the command and in which probing finds it. */
  ghost predicate FirstListed(disk: Disk, directories: seq<string>, command: string, fold: string -> string, i: nat) {
    i < |directories| && MayList(disk, directories[i], command, fold) && disk.probe(directories[i], command).Some? &&
    forall j :: 0 <= j < i ==>
                  !(MayList(disk, directories[j], command, fold) && disk.probe(directories[j], command).Some?)
  }

  /**
    What is found first is found as well in the first directory that may list it: one of its
    names is the command up to case and an appended extension, or it is not listed. A short name
    that Windows resolves without listing it, like PROGRA~1 for a longer one, need not be.
  */
  ghost predicate HitListed(disk: Disk, directories: seq<string>, command: string, fold: string -> string) {
    FirstHit(disk, directories, command).Some? ==>
      exists i: nat :: FirstListed(disk, directories, command, fold, i) &&
                       disk.probe(directories[i], command) == FirstHit(disk, directories, command)
  }

  /** The filtered search finds what the first directory that may list the command finds. */
  lemma {:induction false} ListedIsFound(disk: Disk, directories: seq<string>, command: string,
                                         fold: string -> string, i: nat)
    requires FirstListed(disk, directories, command, fold, i)
    ensures FirstHit(disk, Selected(disk, directories, command, fold), command) == disk.probe(directories[i], command)
    decreases |directories|
  {
    PossibleIff(disk, command, fold);
    hide Possible, MayList;
    var rest := directories[1..];
    assert directories == [directories[0]] + rest;
    SelectedAppend(disk, directories[0], rest, command, fold);
    var selected := Selected(disk, rest, command, fold);
    assert ([directories[0]] + selected)[1..] == selected && [] + selected == selected;
    if i > 0 {
      assert forall j :: 0 <= j < i - 1 ==> rest[j] == directories[j + 1];
      ListedIsFound(disk, rest, command, fold, i - 1);
    }
  }

  /** What the filtered search finds is in some first directory that may list it. */
  lemma {:induction false} FoundIsListed(disk: Disk, directories: seq<string>, command: string,
                                         fold: string -> string) returns (i: nat)
    requires FirstHit(disk, Selected(disk, directories, command, fold), command).Some?
    ensures FirstListed(disk, directories, command, fold, i)
    decreases |directories|
  {
    PossibleIff(disk, command, fold);
    hide Possible, MayList;
    var rest := directories[1..];
    assert directories == [directories[0]] + rest;
    SelectedAppend(disk, directories[0], rest, command, fold);
    var selected := Selected(disk, rest, command, fold);
    assert ([directories[0]] + selected)[1..] == selected && [] + selected == selected;
    if Possible(disk, directories[0], command, fold) && disk.probe(directories[0], command).Some? { return 0; }
    var j := FoundIsListed(disk, rest, command, fold);
    assert forall k :: 0 < k <= j ==> directories[k] == rest[k - 1];
    return j + 1;
  }

  lemma {:induction false} NothingFound(disk: Disk, directories: seq<string>, command: string)
    requires FirstHit(disk, directories, command).None?
    ensures forall i :: 0 <= i < |directories| ==> disk.probe(directories[i], command).None?
  {
    if directories != [] {
      NothingFound(disk, directories[1..], command);
      assert forall i :: 0 < i < |directories| ==> directories[i] == directories[1..][i - 1];
    }
  }

  /** Leaving out directories that cannot hold the command keeps the first hit exactly if it is listed. */
  lemma SelectionKeepsFirstHit(disk: Disk, directories: seq<string>, command: string, fold: string -> string)
    ensures var selected := Selected(disk, directories, command, fold);
            FirstHit(disk, selected, command) == FirstHit(disk, directories, command) <==>
            HitListed(disk, directories, command, fold)
  {
    hide Possible;
    var selected := Selected(disk, directories, command, fold);
    if FirstHit(disk, directories, command).None? {
      NothingFound(disk, directories, command);
      if FirstHit(disk, selected, command).Some? {
        var i := FoundIsListed(disk, directories, command, fold);
      }
    } else if HitListed(disk, directories, command, fold) {
      var i: nat :| FirstListed(disk, directories, command, fold, i) &&
                    disk.probe(directories[i], command) == FirstHit(disk, directories, command);
      ListedIsFound(disk, directories, command, fold, i);
    } else if FirstHit(disk, selected, command).Some? {
      var i := FoundIsListed(disk, directories, command, fold);
      ListedIsFound(disk, directories, command, fold, i);
    }
  }

  /**
    When the filter changes nothing: the current directory has the command, or the first hit on
    the path is listed, or it is in the one directory that is kept when none seems possible.
  */
  ghost predicate FilterHarmless(disk: Disk, directories: seq<string>, command: string, fold: string -> string)
    requires directories != []
  {
    disk.here(command).Some? || HitListed(disk, directories, command, fold) ||
    (Selected(disk, directories, command, fold) == [] && disk.probe(directories[0], command).Some?)
  }

  lemma FilterIff(disk: Disk, directories: seq<string>, command: string, fold: string -> string)
    requires directories != []
    ensures Resolve(disk, Kept(disk, directories, command, fold), command) == Resolve(disk, directories, command) <==>
            FilterHarmless(disk, directories, command, fold)
  {
    hide Possible, HitListed;
    SelectionKeepsFirstHit(disk, directories, command, fold);
    OnlyFirst(disk, directories, command);
  }

  lemma OnlyFirst(disk: Disk, directories: seq<string>, command: string)
    requires directories != []
    ensures FirstHit(disk, directories[..1], command) == disk.probe(directories[0], command)
    ensures disk.probe(directories[0], command).Some? ==>
            FirstHit(disk, directories, command) == disk.probe(directories[0], command)
  {
    var rest := directories[..1];
    assert rest[0] == directories[0] && rest[1..] == [];
  }

  /** A directory that resolves a short name it does not list, searched second: the filter drops it. */
  lemma AliasMissed(disk: Disk, fold: string -> string)
    requires disk.listing("b") == Some({"longername"}) && disk.listing("a") == Some({})
    requires fold("longer~1") == "longer~1" && fold("longername") == "longername"
    requires disk.probe("a", "longer~1") == None && disk.probe("b", "longer~1") == Some("b/longer~1")
    requires disk.here("longer~1") == None
    ensures Resolve(disk, ["a", "b"], "longer~1") == Some("b/longer~1")
    ensures Resolve(disk, Kept(disk, ["a", "b"], "longer~1", fold), "longer~1") == None
  {
    var path, alias := ["a", "b"], "longer~1";
    assert path[1..] == ["b"] && path[..1] == ["a"];
    assert alias[6] != "longername"[6];
    assert !Mentions({"longername"}, alias, fold) && !Mentions({}, alias, fold);
    NoneSelected(disk, path, alias, fold);
    OnlyFirst(disk, path, alias);
    assert FirstHit(disk, path, alias) == FirstHit(disk, ["b"], alias) == Some("b/longer~1");
  }

  class Lookup {
    const path: seq<string>
    const directories: seq<string>
    const disk: Disk
    const fold: string -> string
    var index: map<string, Option<set<string>>>
    var folded: map<string, seq<string>>

    predicate FoldedOk(d: string)
      reads this
      requires d in index
    {
      index[d] == disk.listing(d) && (d in folded <==> index[d].Some?)
    }

    ghost predicate NamesOk(d: string)
      reads this
      requires d in index && d in folded && index[d].Some?
    {
      Ascending(folded[d]) && forall s :: s in folded[d] <==> exists name :: name in index[d].value && fold(name) == s
    }

    /** The remembered listings are those on disk, and the folded names are theirs, sorted. */
    ghost predicate Valid()
      reads this
    {
      (directories == [] || directories == path) && folded.Keys <= index.Keys &&
      (forall d :: d in index ==> FoldedOk(d)) &&
        (forall d :: d in folded ==> d in index && index[d].Some? && NamesOk(d))
    }

    constructor (path: seq<string>, disk: Disk, fold: string -> string)
      ensures Valid() && this.path == path && this.disk == disk && this.fold == fold
    {
      this.path, this.disk, this.fold := path, disk, fold;
      directories := if 0 < |path| <= MAX_DIRECTORIES && "" !in path then path else [];
      index, folded := map[], map[];
    }

    /** Lists a directory once and says whether the command may be in it. */
    method MayHold(d: string, command: string) returns (possible: bool)
      requires Valid()
      modifies this
      ensures Valid() && possible == Possible(disk, d, command, fold)
    {
      if d !in index {
        var names := disk.listing(d);
        if names.Some? {
          var a := SortedNames(names.value, fold);
          index, folded := index[d := names], folded[d := a];
        } else {
          index := index[d := names];
        }
      }
      assert FoldedOk(d);
      if index[d].None? { return true; }
      assert NamesOk(d);
      var a := folded[d];
      var position := BisectLeft(a, fold(command));
      FirstNotBelowDecides(a, fold(command), position);
      possible := position < |a| && fold(command) <= a[position];
      FoldedMentions(index[d].value, command, a);
    }

    lemma FoldedMentions(names: set<string>, command: string, a: seq<string>)
      requires forall s :: s in a <==> exists name :: name in names && fold(name) == s
      ensures Mentions(names, command, fold) <==> exists i :: 0 <= i < |a| && fold(command) <= a[i]
    {
      if Mentions(names, command, fold) {
        var name :| name in names && fold(command) <= fold(name);
        assert fold(name) in a;
      }
      if exists i :: 0 <= i < |a| && fold(command) <= a[i] {
        var i :| 0 <= i < |a| && fold(command) <= a[i];
        assert a[i] in a;
      }
    }

    /**
      The prefiltered lookup probes the kept directories, and finds what the resolver finds in all
      exactly if the filter is not used or does no harm.
    */
    method Which(command: string, hasDirectory: bool) returns (hit: Option<Hit>)
      requires Valid()
      modifies this
      ensures Valid()
      ensures directories == [] || hasDirectory ==> hit == Resolve(disk, path, command)
      ensures directories != [] && !hasDirectory ==> hit == Resolve(disk, Kept(disk, path, command, fold), command)
      ensures hit == Resolve(disk, path, command) <==>
              directories == [] || hasDirectory || FilterHarmless(disk, path, command, fold)
    {
      hide Possible, FilterHarmless;
      if directories == [] || hasDirectory { return Resolve(disk, path, command); }
      var selected: seq<string> := [];
      var i := 0;
      while i < |directories|
        invariant i <= |directories| && Valid() && selected == Selected(disk, directories[..i], command, fold)
      {
        var possible := MayHold(directories[i], command);
        assert directories[..i + 1][..i] == directories[..i];
        if possible { selected := selected + [directories[i]]; }
        i := i + 1;
      }
      assert directories[..i] == directories;
      FilterIff(disk, directories, command, fold);
      return Resolve(disk, if selected == [] then directories[..1] else selected, command);
    }
  }
}
