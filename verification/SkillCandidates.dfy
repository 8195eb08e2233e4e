/** The skill candidates of an uploaded zip: its entries grouped by directory. */
module SkillCandidates {
  import opened JsonText
  import opened Canonical

  /** One directory under the root: a skill candidate. */
  datatype Raw = Raw(name: Text, files: seq<File>)

  function IndexOf(t: Text, u: Unit, i: nat): int
    decreases |t| - i
  {
    if i >= |t| then -1 else if t[i] == u then i else IndexOf(t, u, i + 1)
  }

  lemma {:induction false} IndexOfFinds(t: Text, u: Unit, i: nat)
    requires i <= |t|
    ensures var k := IndexOf(t, u, i);
            if k == -1 then u !in t[i..] else i <= k < |t| && t[k] == u && u !in t[i..k]
    decreases |t| - i
  {
    if i < |t| && t[i] != u {
      IndexOfFinds(t, u, i + 1);
      var k := IndexOf(t, u, i + 1);
      if k == -1 { assert t[i..] == [t[i]] + t[i + 1..]; } else { assert t[i..k] == [t[i]] + t[i + 1..k]; }
    }
  }

  /** The candidate a directory name leads to, created when it is new. */
  function AddFiles(groups: seq<Raw>, name: Text, fs: seq<File>): seq<Raw>
    decreases |groups|
  {
    if |groups| == 0 then [Raw(name, fs)]
    else if groups[0].name == name then [groups[0].(files := groups[0].files + fs)] + groups[1..]
    else [groups[0]] + AddFiles(groups[1..], name, fs)
  }

  /** What filing a content under a relative path leaves in the candidate. */
  function Filed(rel: Text, content: Text): (fs: seq<File>)
    ensures |fs| <= 1
  {
    if rel == Proto() then [] else [File(rel, content)]
  }

  datatype Extracted = Rejected | Candidates(groups: seq<Raw>)

  /** `Rejected` when some entry lies directly under the root, or nothing is left. */
  function GroupFrom(entries: seq<File>, groups: seq<Raw>): Extracted
    decreases |entries|
  {
    if |entries| == 0 then (if |groups| == 0 then Rejected else Candidates(groups))
    else
      var path := entries[0].path;
      var slash := IndexOf(path, SLASH, 0);
      if slash <= 0 || |path| <= slash then Rejected
      else if slash + 1 == |path| then GroupFrom(entries[1..], groups)
      else GroupFrom(entries[1..], AddFiles(groups, path[..slash], Filed(path[slash + 1..], entries[0].content)))
  }

  method ExtractCandidates(entries: seq<File>) returns (r: Extracted)
    ensures r == GroupFrom(entries, [])
  {
    var groups: seq<Raw> := [];
    var i := 0;
    while i < |entries|
      invariant i <= |entries|
      invariant GroupFrom(entries[i..], groups) == GroupFrom(entries, [])
    {
      assert entries[i..][1..] == entries[i + 1..];
      var path := entries[i].path;
      var slash := IndexOf(path, SLASH, 0);
      IndexOfFinds(path, SLASH, 0);
      if slash <= 0 { return Rejected; }
      if slash + 1 < |path| {
        groups := AddFiles(groups, path[..slash], Filed(path[slash + 1..], entries[i].content));
      }
      i := i + 1;
    }
    r := if |groups| == 0 then Rejected else Candidates(groups);
  }

  /** The entries a list of candidates came from. */
  function Flatten(groups: seq<Raw>): multiset<File>
    decreases |groups|
  {
    if |groups| == 0 then multiset{} else FlattenOne(groups[0].name, groups[0].files) + Flatten(groups[1..])
  }

  function FlattenOne(name: Text, files: seq<File>): multiset<File>
    decreases |files|
  {
    if |files| == 0 then multiset{}
    else
      var last := files[|files| - 1];
      FlattenOne(name, files[..|files| - 1]) + multiset{File(name + [SLASH] + last.path, last.content)}
  }

  predicate Directory(f: File) {
    |f.path| > 0 && f.path[|f.path| - 1] == SLASH && IndexOf(f.path, SLASH, 0) == |f.path| - 1
  }

  function FilesOnly(entries: seq<File>): seq<File>
    decreases |entries|
  {
    if |entries| == 0 then [] else (if Directory(entries[0]) then [] else [entries[0]]) + FilesOnly(entries[1..])
  }

  /** An entry right under the zip's root, which rejects the whole upload. */
  predicate Bare(f: File) { IndexOf(f.path, SLASH, 0) <= 0 }

  /** An entry whose content the candidate never gets. */
  predicate Lost(f: File) {
    var slash := IndexOf(f.path, SLASH, 0);
    0 < slash < |f.path| && f.path[slash + 1..] == Proto()
  }

  function Kept(entries: seq<File>): seq<File>
    decreases |entries|
  {
    if |entries| == 0 then []
    else (if Directory(entries[0]) || Lost(entries[0]) then [] else [entries[0]]) + Kept(entries[1..])
  }

  lemma {:induction false} KeptOfFiles(entries: seq<File>)
    ensures |Kept(entries)| <= |FilesOnly(entries)|
    ensures if exists f :: f in entries && Lost(f) then |Kept(entries)| < |FilesOnly(entries)|
            else Kept(entries) == FilesOnly(entries)
    decreases |entries|
  {
    hide Lost, Directory;
    if |entries| > 0 {
      KeptOfFiles(entries[1..]);
      LostIsNoDirectory(entries[0]);
      assert entries == [entries[0]] + entries[1..];
    }
  }

  lemma LostIsNoDirectory(f: File)
    ensures Lost(f) ==> !Directory(f)
  {
    IndexOfFinds(f.path, SLASH, 0);
    assert |Proto()| == 9;
  }

  predicate DistinctNames(groups: seq<Raw>) {
    forall i, j :: 0 <= i < j < |groups| ==> groups[i].name != groups[j].name
  }

  lemma {:induction false} AddFilesNames(groups: seq<Raw>, name: Text, fs: seq<File>)
    requires DistinctNames(groups)
    ensures var r := AddFiles(groups, name, fs);
            && DistinctNames(r) && |r| > 0
            && forall i :: 0 <= i < |r| ==>
                 r[i].name == name || exists j :: 0 <= j < |groups| && groups[j].name == r[i].name
    decreases |groups|
  {
    if |groups| > 0 && groups[0].name != name {
      AddFilesNames(groups[1..], name, fs);
      var rest := AddFiles(groups[1..], name, fs);
      forall i | 0 <= i < |rest|
        ensures rest[i].name != groups[0].name
        ensures rest[i].name == name || exists j :: 0 <= j < |groups| && groups[j].name == rest[i].name
      {
        if rest[i].name != name {
          var j :| 0 <= j < |groups[1..]| && groups[1..][j].name == rest[i].name;
          assert groups[j + 1].name == rest[i].name;
        }
      }
    }
  }

  lemma {:induction false} FlattenMore(name: Text, files: seq<File>, fs: seq<File>)
    requires |fs| <= 1
    ensures FlattenOne(name, files + fs) == FlattenOne(name, files) + FlattenOne(name, fs)
  {
    if |fs| == 1 {
      assert (files + fs)[..|files|] == files;
      assert fs[..0] == [];
    } else {
      assert files + fs == files;
    }
  }

  lemma {:induction false} AddFilesFlattens(groups: seq<Raw>, name: Text, fs: seq<File>)
    requires |fs| <= 1
    ensures Flatten(AddFiles(groups, name, fs)) == Flatten(groups) + FlattenOne(name, fs)
    decreases |groups|
  {
    hide FlattenOne;
    if |groups| == 0 {
    } else if groups[0].name == name {
      FlattenMore(name, groups[0].files, fs);
    } else {
      AddFilesFlattens(groups[1..], name, fs);
    }
  }

  /** One entry with a relative path adds itself, or nothing when it is lost. */
  lemma EntryFlattens(f: File, slash: nat)
    requires slash == IndexOf(f.path, SLASH, 0) && 0 < slash && slash + 1 < |f.path| && f.path[slash] == SLASH
    ensures FlattenOne(f.path[..slash], Filed(f.path[slash + 1..], f.content))
            == if Lost(f) then multiset{} else multiset{f}
  {
    hide Proto;
    assert f.path[..slash] + [SLASH] + f.path[slash + 1..] == f.path;
    var fs := Filed(f.path[slash + 1..], f.content);
    assert fs[..0] == [];
  }

  ghost predicate SomeBare(entries: seq<File>) { exists f :: f in entries && Bare(f) }

  lemma BareSplit(entries: seq<File>)
    requires |entries| > 0
    ensures SomeBare(entries) <==> Bare(entries[0]) || SomeBare(entries[1..])
  {
    hide Bare;
    assert entries == [entries[0]] + entries[1..];
  }

  lemma {:induction false} RejectedExactly(entries: seq<File>, groups: seq<Raw>)
    ensures GroupFrom(entries, groups).Rejected? <==> SomeBare(entries) || (|groups| == 0 && FilesOnly(entries) == [])
    decreases |entries|
  {
    hide Filed;
    if |entries| > 0 {
      hide SomeBare;
      BareSplit(entries);
      var path := entries[0].path;
      var slash := IndexOf(path, SLASH, 0);
      IndexOfFinds(path, SLASH, 0);
      if slash > 0 {
        if slash + 1 == |path| {
          RejectedExactly(entries[1..], groups);
        } else {
          RejectedExactly(entries[1..], AddFiles(groups, path[..slash], Filed(path[slash + 1..], entries[0].content)));
        }
      }
    }
  }

  lemma {:induction false} EntriesPartition(entries: seq<File>, groups: seq<Raw>)
    requires DistinctNames(groups)
    ensures var r := GroupFrom(entries, groups);
            r.Candidates? ==> DistinctNames(r.groups) && Flatten(r.groups) == Flatten(groups) + multiset(Kept(entries))
    decreases |entries|
  {
    hide Flatten, FlattenOne, Filed, Lost;
    if |entries| > 0 {
      var path := entries[0].path;
      var slash := IndexOf(path, SLASH, 0);
      IndexOfFinds(path, SLASH, 0);
      if slash > 0 {
        LostIsNoDirectory(entries[0]);
        if slash + 1 == |path| {
          EntriesPartition(entries[1..], groups);
        } else {
          var name, fs := path[..slash], Filed(path[slash + 1..], entries[0].content);
          EntryFlattens(entries[0], slash);
          AddFilesNames(groups, name, fs);
          AddFilesFlattens(groups, name, fs);
          EntriesPartition(entries[1..], AddFiles(groups, name, fs));
        }
      }
    }
  }

  /** An upload is rejected exactly for an entry right under the root or for having no
      file entry. Otherwise the candidates have distinct names and put together hold the
      file entries whose relative path is not `__proto__`, nothing invented or filed
      twice: all file entries exactly when there is none of those. */
  lemma CandidatesPartition(entries: seq<File>)
    ensures var r := GroupFrom(entries, []);
            && (r.Rejected? <==> SomeBare(entries) || FilesOnly(entries) == [])
            && (r.Candidates? ==>
                  && DistinctNames(r.groups) && Flatten(r.groups) == multiset(Kept(entries))
                  && (Flatten(r.groups) == multiset(FilesOnly(entries)) <==> !exists f :: f in entries && Lost(f)))
  {
    hide Lost, Bare;
    RejectedExactly(entries, []);
    EntriesPartition(entries, []);
    KeptOfFiles(entries);
    assert |multiset(Kept(entries))| == |Kept(entries)| && |multiset(FilesOnly(entries))| == |FilesOnly(entries)|;
  }

  // ---------------------------------------------------------------- directory by directory

  /** A directory under the root: a name without a slash. */
  predicate DirectoryName(name: Text) { |name| > 0 && SLASH !in name }

  /** A file somewhere below the directory of that name. */
  predicate Below(f: File, name: Text) {
    |name| + 1 < |f.path| && f.path[..|name|] == name && f.path[|name|] == SLASH
  }

  /** The files below a directory, by their paths in it, in the order of the zip. */
  function Under(entries: seq<File>, name: Text): (fs: seq<File>)
    decreases |entries|
  {
    if |entries| == 0 then []
    else
      var rest := Under(entries[1..], name);
      if !Below(entries[0], name) || entries[0].path[|name| + 1..] == Proto() then rest
      else [File(entries[0].path[|name| + 1..], entries[0].content)] + rest
  }

  predicate Has(groups: seq<Raw>, name: Text) { exists i :: 0 <= i < |groups| && groups[i].name == name }

  function FilesOf(groups: seq<Raw>, name: Text): seq<File>
    decreases |groups|
  {
    if |groups| == 0 then [] else if groups[0].name == name then groups[0].files else FilesOf(groups[1..], name)
  }

  lemma {:induction false} AddFilesTo(groups: seq<Raw>, name: Text, fs: seq<File>, other: Text)
    ensures var r := AddFiles(groups, name, fs);
            && FilesOf(r, other) == FilesOf(groups, other) + (if other == name then fs else [])
            && (Has(r, other) <==> Has(groups, other) || other == name)
    decreases |groups|
  {
    var r := AddFiles(groups, name, fs);
    if |groups| == 0 {
      assert r[0].name == name;
    } else {
      HasSplit(groups, other);
      HasSplit(r, other);
      if groups[0].name != name {
        AddFilesTo(groups[1..], name, fs, other);
        assert r[1..] == AddFiles(groups[1..], name, fs);
      } else {
        assert r[1..] == groups[1..];
      }
    }
  }

  lemma HasSplit(groups: seq<Raw>, name: Text)
    requires |groups| > 0
    ensures Has(groups, name) <==> groups[0].name == name || Has(groups[1..], name)
  {
    if Has(groups, name) && groups[0].name != name {
      var i :| 0 <= i < |groups| && groups[i].name == name;
      assert groups[1..][i - 1].name == name;
    }
    if Has(groups[1..], name) {
      var i :| 0 <= i < |groups[1..]| && groups[1..][i].name == name;
      assert groups[i + 1].name == name;
    }
  }

  lemma {:induction false} IndexOfAt(t: Text, u: Unit, i: nat, k: nat)
    requires i <= k < |t| && t[k] == u && u !in t[i..k]
    ensures IndexOf(t, u, i) == k
    decreases k - i
  {
    if i < k {
      assert t[i] == t[i..k][0];
      assert t[i..k] == [t[i]] + t[i + 1..k];
      IndexOfAt(t, u, i + 1, k);
    }
  }

  /** The first slash of a path ends the name of its directory. */
  lemma BelowFirstSlash(f: File, name: Text)
    requires DirectoryName(name)
    ensures var slash := IndexOf(f.path, SLASH, 0);
            && (slash <= 0 ==> !Below(f, name))
            && (0 < slash ==> slash < |f.path|
                              && (Below(f, name) <==> slash + 1 < |f.path| && f.path[..slash] == name))
  {
    IndexOfFinds(f.path, SLASH, 0);
    if Below(f, name) {
      assert f.path[0..|name|] == name;
      IndexOfAt(f.path, SLASH, 0, |name|);
    }
  }

  ghost predicate SomeBelow(entries: seq<File>, name: Text) { exists f :: f in entries && Below(f, name) }

  lemma BelowSplit(entries: seq<File>, name: Text)
    requires |entries| > 0
    ensures SomeBelow(entries, name) <==> Below(entries[0], name) || SomeBelow(entries[1..], name)
  {
    hide Below;
    assert entries == [entries[0]] + entries[1..];
  }

  lemma {:induction false} GroupsAre(entries: seq<File>, groups: seq<Raw>, name: Text)
    requires DirectoryName(name) && GroupFrom(entries, groups).Candidates?
    ensures var r := GroupFrom(entries, groups).groups;
            && FilesOf(r, name) == FilesOf(groups, name) + Under(entries, name)
            && (Has(r, name) <==> Has(groups, name) || SomeBelow(entries, name))
    decreases |entries|
  {
    hide Below, Has, FilesOf, AddFiles, IndexOf;
    if |entries| > 0 {
      hide SomeBelow;
      var path := entries[0].path;
      var slash := IndexOf(path, SLASH, 0);
      BelowFirstSlash(entries[0], name);
      BelowSplit(entries, name);
      if slash + 1 == |path| {
        GroupsAre(entries[1..], groups, name);
      } else {
        var fs := Filed(path[slash + 1..], entries[0].content);
        AddFilesTo(groups, path[..slash], fs, name);
        GroupsAre(entries[1..], AddFiles(groups, path[..slash], fs), name);
        FirstUnder(entries, name, slash);
      }
    }
  }

  lemma FirstUnder(entries: seq<File>, name: Text, slash: nat)
    requires |entries| > 0 && slash + 1 < |entries[0].path|
    requires Below(entries[0], name) <==> entries[0].path[..slash] == name
    ensures Under(entries, name)
            == (if entries[0].path[..slash] == name then Filed(entries[0].path[slash + 1..], entries[0].content)
                else [])
               + Under(entries[1..], name)
  {
    hide Below, Proto;
  }

  lemma {:induction false} NamesAreDirectories(entries: seq<File>, groups: seq<Raw>)
    requires forall i :: 0 <= i < |groups| ==> DirectoryName(groups[i].name)
    ensures var r := GroupFrom(entries, groups);
            r.Candidates? ==> forall i :: 0 <= i < |r.groups| ==> DirectoryName(r.groups[i].name)
    decreases |entries|
  {
    hide Filed;
    if |entries| > 0 {
      var path := entries[0].path;
      var slash := IndexOf(path, SLASH, 0);
      IndexOfFinds(path, SLASH, 0);
      if slash > 0 {
        assert path[0..slash] == path[..slash];
        if slash + 1 == |path| {
          NamesAreDirectories(entries[1..], groups);
        } else {
          var fs := Filed(path[slash + 1..], entries[0].content);
          AddFilesDirectories(groups, path[..slash], fs);
          NamesAreDirectories(entries[1..], AddFiles(groups, path[..slash], fs));
        }
      }
    }
  }

  lemma {:induction false} AddFilesDirectories(groups: seq<Raw>, name: Text, fs: seq<File>)
    requires DirectoryName(name) && forall i :: 0 <= i < |groups| ==> DirectoryName(groups[i].name)
    ensures forall i :: 0 <= i < |AddFiles(groups, name, fs)| ==> DirectoryName(AddFiles(groups, name, fs)[i].name)
    decreases |groups|
  {
    if |groups| > 0 && groups[0].name != name { AddFilesDirectories(groups[1..], name, fs); }
  }

  lemma {:induction false} FilesOfAt(groups: seq<Raw>, i: nat)
    requires DistinctNames(groups) && i < |groups|
    ensures FilesOf(groups, groups[i].name) == groups[i].files
    decreases |groups|
  {
    if i > 0 { FilesOfAt(groups[1..], i - 1); }
  }

  /** The candidates are the directories under the root that have a file below them, each
      with all its files, by their paths in it and in the order of the zip, but for one
      called `__proto__`. */
  lemma CandidatesAreDirectories(entries: seq<File>)
    ensures var r := GroupFrom(entries, []);
            r.Candidates? ==>
              && (forall i :: 0 <= i < |r.groups| ==>
                    DirectoryName(r.groups[i].name) && r.groups[i].files == Under(entries, r.groups[i].name))
              && (forall name :: DirectoryName(name) ==> (Has(r.groups, name) <==> SomeBelow(entries, name)))
  {
    hide GroupFrom, Under, Below, DirectoryName;
    var r := GroupFrom(entries, []);
    if r.Candidates? {
      CandidatesPartition(entries);
      NamesAreDirectories(entries, []);
      forall i | 0 <= i < |r.groups| ensures r.groups[i].files == Under(entries, r.groups[i].name) {
        GroupsAre(entries, [], r.groups[i].name);
        FilesOfAt(r.groups, i);
      }
      forall name | DirectoryName(name) ensures Has(r.groups, name) <==> SomeBelow(entries, name) {
        GroupsAre(entries, [], name);
      }
    }
  }

  /** The upload is rejected exactly for an entry outside every directory, or when there is
      no file below any. */
  lemma RejectedForBareEntries(entries: seq<File>)
    ensures GroupFrom(entries, []).Rejected?
            <==> || (exists f :: f in entries && (SLASH !in f.path || f.path[0] == SLASH))
                 || (forall name :: DirectoryName(name) ==> !SomeBelow(entries, name))
  {
    hide GroupFrom, Below, IndexOf;
    RejectedExactly(entries, []);
    forall f: File ensures Bare(f) <==> SLASH !in f.path || f.path[0] == SLASH { BareIs(f); }
    if !SomeBare(entries) { NoFilesBelow(entries); }
  }

  lemma BareIs(f: File)
    ensures Bare(f) <==> SLASH !in f.path || f.path[0] == SLASH
  {
    IndexOfFinds(f.path, SLASH, 0);
    assert f.path[0..] == f.path;
  }

  lemma {:induction false} NoFilesBelow(entries: seq<File>)
    requires !SomeBare(entries)
    ensures FilesOnly(entries) == [] <==> forall name :: DirectoryName(name) ==> !SomeBelow(entries, name)
    decreases |entries|
  {
    hide Below, IndexOf;
    if |entries| > 0 {
      hide SomeBare, SomeBelow;
      BareSplit(entries);
      NoFilesBelow(entries[1..]);
      FileIsBelow(entries[0]);
      forall name ensures SomeBelow(entries, name) <==> Below(entries[0], name) || SomeBelow(entries[1..], name) {
        BelowSplit(entries, name);
      }
    }
  }

  lemma FileIsBelow(f: File)
    requires !Bare(f)
    ensures Directory(f) <==> forall name :: DirectoryName(name) ==> !Below(f, name)
  {
    var slash := IndexOf(f.path, SLASH, 0);
    IndexOfFinds(f.path, SLASH, 0);
    assert f.path[0..slash] == f.path[..slash];
    forall name | DirectoryName(name) ensures Below(f, name) <==> slash + 1 < |f.path| && f.path[..slash] == name {
      BelowFirstSlash(f, name);
    }
    assert DirectoryName(f.path[..slash]);
  }

  /** The lost entry: a zip that holds only `pkg/__proto__` has a candidate without files. */
  lemma ProtoEntryIsLost(content: Text)
    ensures var f := File(Ascii("pkg/__proto__"), content);
            Lost(f) && FilesOnly([f]) == [f] && GroupFrom([f], []) == Candidates([Raw(Ascii("pkg"), [])])
  {
    var f := File(Ascii("pkg/__proto__"), content);
    assert IndexOf(f.path, SLASH, 3) == 3;
    assert IndexOf(f.path, SLASH, 1) == 3;
    assert f.path[3 + 1..] == Proto() && f.path[..3] == Ascii("pkg");
    assert [f][1..] == [];
  }
}
