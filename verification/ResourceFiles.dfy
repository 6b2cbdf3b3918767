/**
  The installer's replacement of the site resource files: staged, replaced with a rollback,
  and followed by the removal of extensions built for other interpreters
  (`_replace_resource_files`, `copy_resource_files`); and the publication of the frontend
  (`_publish_frontend_installation`).

  A directory is a map from file names to contents. Every copy, rename and removal may fail:
  `faults` says of each, in the order they are tried, whether it does.
 */
module ResourceFiles {
  import opened Text
  import opened Wrappers

  type Data = seq<bv8>
  type Directory = map<string, Data>

  /** A selected source file */
  datatype Source = Source(name: string, data: Data)

  predicate DistinctNames(selected: seq<Source>) {
    forall i, j :: 0 <= i < j < |selected| ==> selected[i].name != selected[j].name
  }

  /** The directory with the selected files in place of those of the same names */
  function Installed(dir: Directory, selected: seq<Source>): Directory {
    if selected == [] then dir
    else
      var last := selected[|selected| - 1];
      Installed(dir, selected[..|selected| - 1])[last.name := last.data]
  }

  /** Installing changes the selected names only, and gives each its source. */
  lemma {:induction false} InstalledFiles(dir: Directory, selected: seq<Source>)
    requires DistinctNames(selected)
    ensures forall s :: s in selected ==>
      s.name in Installed(dir, selected) && Installed(dir, selected)[s.name] == s.data
    ensures forall n :: (forall s :: s in selected ==> s.name != n) ==>
      (n in Installed(dir, selected) <==> n in dir) && (n in dir ==> Installed(dir, selected)[n] == dir[n])
    decreases |selected|
  {
    if selected != [] {
      var rest, last := selected[..|selected| - 1], selected[|selected| - 1];
      assert Installed(dir, selected) == Installed(dir, rest)[last.name := last.data];
      hide Installed;
      InstalledFiles(dir, rest);
      var before, after := Installed(dir, rest), Installed(dir, selected);
      forall s | s in selected
        ensures s.name in after && after[s.name] == s.data
      {
        var i :| 0 <= i < |selected| && selected[i] == s;
        if i < |rest| {
          assert rest[i] == s;
          assert s in rest && s.name != last.name;
        }
      }
      forall n | forall s :: s in selected ==> s.name != n
        ensures (n in after <==> n in dir) && (n in dir ==> after[n] == dir[n])
      {
        assert last in selected;
        assert forall s :: s in rest ==> s in selected;
      }
    }
  }

  /** How many of the operations fail */
  function Count(faults: seq<bool>): nat {
    if faults == [] then 0 else (if faults[0] then 1 else 0) + Count(faults[1..])
  }

  /** `(fault, rest)`: whether the next operation fails */
  function NextFault(faults: seq<bool>): (r: (bool, seq<bool>))
    ensures Count(faults) == (if r.0 then 1 else 0) + Count(r.1)
  {
    if faults == [] then (false, []) else (faults[0], faults[1..])
  }

  // ----- a replacement, as a function of which operations fail

  /** How a replacement ends; the last two stand for the error that it raises. */
  datatype Replacement = Replaced | RolledBack | Stuck

  datatype End = End(how: Replacement, dir: Directory, rest: seq<bool>)

  datatype Step = Step(ok: bool, dir: Directory, rest: seq<bool>)

  /** Copies that many sources aside. */
  function Staged(n: nat, faults: seq<bool>): (bool, seq<bool>) {
    if n == 0 then (true, faults)
    else if NextFault(faults).0 then (false, NextFault(faults).1)
    else Staged(n - 1, NextFault(faults).1)
  }

  /** Removes what was installed, the last one first. */
  function Unlink(dir: Directory, done: seq<Source>, faults: seq<bool>): Step
    decreases |done|
  {
    if done == [] then Step(true, dir, faults)
    else
      var before, name := done[..|done| - 1], done[|done| - 1].name;
      if name !in dir then Unlink(dir, before, faults)
      else if NextFault(faults).0 then Step(false, dir, NextFault(faults).1)
      else Unlink(dir - {name}, before, NextFault(faults).1)
  }

  /** Moves the originals home, the first one first. */
  function Restore(dir: Directory, moved: seq<Source>, faults: seq<bool>): Step
    decreases |moved|
  {
    if moved == [] then Step(true, dir, faults)
    else if NextFault(faults).0 then Step(false, dir, NextFault(faults).1)
    else Restore(dir[moved[0].name := moved[0].data], moved[1..], NextFault(faults).1)
  }

  /** The `except` branch; originals that are not home are deleted with the temporary directory. */
  function Rollback(dir: Directory, done: seq<Source>, moved: seq<Source>, faults: seq<bool>): End {
    var unlinked := Unlink(dir, done, faults);
    if !unlinked.ok then End(Stuck, unlinked.dir, unlinked.rest)
    else
      var restored := Restore(unlinked.dir, moved, unlinked.rest);
      End(if restored.ok then RolledBack else Stuck, restored.dir, restored.rest)
  }

  /** The loop over the selected files; `done` are installed, `moved` are the originals moved away. */
  function Install(dir: Directory, done: seq<Source>, moved: seq<Source>, todo: seq<Source>, faults: seq<bool>): End
    decreases |todo|
  {
    if todo == [] then End(Replaced, dir, faults)
    else
      var s, present := todo[0], todo[0].name in dir;
      var (moveFails, rest) := if present then NextFault(faults) else (false, faults);
      if moveFails then Rollback(dir, done, moved, rest)
      else
        var moved' := moved + if present then [Source(s.name, dir[s.name])] else [];
        var (placeFails, rest') := NextFault(rest);
        if placeFails then Rollback(dir - {s.name}, done, moved', rest')
        else Install(dir[s.name := s.data], done + [s], moved', todo[1..], rest')
  }

  function Replace(dir: Directory, selected: seq<Source>, faults: seq<bool>): End {
    var (ok, rest) := Staged(|selected|, faults);
    if ok then Install(dir, [], [], selected, rest) else End(RolledBack, dir, rest)
  }

  // ----- the directory

  class SiteDirectory {
    var files: Directory

    constructor (files: Directory)
      ensures this.files == files
    {
      this.files := files;
    }

    /** `_replace_resource_files` */
    method ReplaceResourceFiles(selected: seq<Source>, faults: seq<bool>) returns (how: Replacement, rest: seq<bool>)
      requires DistinctNames(selected)
      modifies this
      ensures End(how, files, rest) == Replace(old(files), selected, faults)
    {
      ghost var end := Replace(files, selected, faults);
      var ok, staging;
      ok, staging, rest := Stage(selected, faults);
      if !ok {
        how := RolledBack;
        return;
      }
      var installed: seq<Source> := [];
      var backups: seq<Source> := [];
      assert selected[0..] == selected && selected[..0] == [];
      for i := 0 to |selected|
        invariant installed == selected[..i]
        invariant Install(files, installed, backups, selected[i..], rest) == end
      {
        assert selected[i..][0] == selected[i] && selected[i..][1..] == selected[i + 1..];
        var s, fault := selected[i], false;
        ghost var before := files;
        if s.name in files {
          fault, rest := NextFault(rest).0, NextFault(rest).1;
          if !fault {
            backups := backups + [Source(s.name, files[s.name])];
            files := files - {s.name};
          }
        } else {
          assert files - {s.name} == files && backups + [] == backups;
        }
        if !fault {
          fault, rest := NextFault(rest).0, NextFault(rest).1;
          if !fault {
            assert before[s.name := s.data] == (before - {s.name})[s.name := s.data];
            files := files[s.name := staging[i]];
            installed := installed + [s];
            continue;
          }
        }
        how, rest := RollBack(installed, backups, rest);
        return;
      }
      assert selected[|selected|..] == [];
      how := Replaced;
    }

    /** The `except` branch: removes what was installed, then moves every backup home, until an operation fails. */
    method RollBack(installed: seq<Source>, backups: seq<Source>, faults: seq<bool>)
      returns (how: Replacement, rest: seq<bool>)
      modifies this
      ensures End(how, files, rest) == Rollback(old(files), installed, backups, faults)
    {
      ghost var unlinked := Unlink(files, installed, faults);
      rest := faults;
      assert installed[..|installed|] == installed;
      for i := |installed| downto 0
        invariant Unlink(files, installed[..i], rest) == unlinked
      {
        assert installed[..i + 1][..i] == installed[..i];
        if installed[i].name in files {
          var fault := NextFault(rest).0;
          rest := NextFault(rest).1;
          if fault {
            return Stuck, rest;
          }
          files := files - {installed[i].name};
        }
      }
      ghost var restored := Restore(files, backups, rest);
      assert backups[0..] == backups;
      for i := 0 to |backups|
        invariant Restore(files, backups[i..], rest) == restored
      {
        assert backups[i..][0] == backups[i] && backups[i..][1..] == backups[i + 1..];
        var fault := NextFault(rest).0;
        rest := NextFault(rest).1;
        if fault {
          return Stuck, rest;
        }
        files := files[backups[i].name := backups[i].data];
      }
      how := RolledBack;
    }

    /**
      `copy_resource_files`: the required files are checked, then replaced, then native site
      libraries other than the active one are removed.
     */
    method CopyResourceFiles(source: Option<Directory>, platform: Platform, python: string, faults: seq<bool>)
      returns (outcome: Outcome)
      modifies this
      ensures outcome.SourceMissing? <==> source.None?
      ensures outcome.Incomplete? <==> source.Some? && !(RuntimeFiles(platform, python) <= source.value.Keys)
      ensures outcome.SourceMissing? || outcome.Incomplete? ==> files == old(files)
      ensures outcome.Copied? ==>
        var full := Installed(old(files), Selected(source.value, platform, python));
        files == WithoutOthers(full, NativeName(platform, python))
      ensures outcome.RemovalFailed? ==>
        var full := Installed(old(files), Selected(source.value, platform, python));
        files.Items <= full.Items && WithoutOthers(full, NativeName(platform, python)).Items <= files.Items
      ensures outcome.ReplacementFailed? ==> files == old(files)
      ensures outcome.RollbackFailed? ==>
        var selected := Selected(source.value, platform, python);
        LeftUndone(files, old(files), selected) && IsMixed(files, old(files), selected)
      ensures Count(faults) == 0 ==> !outcome.RemovalFailed? && !outcome.ReplacementFailed?
      ensures Count(faults) <= 1 ==> !outcome.RollbackFailed?
    {
      hide Installed, WithoutOthers, IsMixed, LeftUndone, NotAll, Count, Replace;
      if source.None? {
        return SourceMissing;
      }
      if !(RuntimeFiles(platform, python) <= source.value.Keys) {
        return Incomplete;
      }
      var selected := Selected(source.value, platform, python);
      TwoNames(platform, python);
      ghost var before := files;
      var how, rest := ReplaceResourceFiles(selected, faults);
      ReplacementEnds(before, selected, faults);
      if !how.Replaced? {
        return if how.RolledBack? then ReplacementFailed else RollbackFailed;
      }
      var ok := RemoveOthers(NativeName(platform, python), rest);
      outcome := if ok then Copied else RemovalFailed;
    }

    /** Removes native site libraries other than the active one, until a removal fails. */
    method RemoveOthers(active: string, faults: seq<bool>) returns (ok: bool)
      modifies this
      ensures ok ==> files == WithoutOthers(old(files), active)
      ensures files.Items <= old(files).Items && WithoutOthers(old(files), active).Items <= files.Items
      ensures Count(faults) == 0 ==> ok
    {
      hide IsNativeLibrary, Others, WithoutOthers, Count;
      var rest := faults;
      ghost var full := files;
      var todo := files.Keys;
      AllRemoved(full, active);
      while todo != {}
        invariant Count(rest) <= Count(faults)
        invariant todo <= full.Keys
        invariant files == full - Others(full.Keys - todo, active)
      {
        var name :| name in todo;
        OthersGrow(full.Keys - todo, name, active);
        assert full.Keys - (todo - {name}) == full.Keys - todo + {name};
        todo := todo - {name};
        if IsNativeLibrary(name) && name != active {
          var fault := NextFault(rest).0;
          rest := NextFault(rest).1;
          if fault {
            assert full.Keys - (todo + {name}) == full.Keys - todo - {name};
            PartlyRemoved(full, files, full.Keys - todo - {name}, active);
            return false;
          }
          files := files - {name};
        }
      }
      assert full.Keys - todo == full.Keys;
      PartlyRemoved(full, files, full.Keys, active);
      ok := true;
    }
  }

  /** Copies the sources aside; nothing else changes if a copy fails. */
  method Stage(selected: seq<Source>, faults: seq<bool>) returns (ok: bool, staging: seq<Data>, rest: seq<bool>)
    ensures (ok, rest) == Staged(|selected|, faults)
    ensures ok ==> |staging| == |selected| && forall i :: 0 <= i < |selected| ==> staging[i] == selected[i].data
  {
    ok, staging, rest := true, [], faults;
    for i := 0 to |selected|
      invariant Staged(|selected| - i, rest) == Staged(|selected|, faults)
      invariant |staging| == i && forall j :: 0 <= j < i ==> staging[j] == selected[j].data
    {
      var fault := NextFault(rest).0;
      rest := NextFault(rest).1;
      if fault {
        return false, [], rest;
      }
      staging := staging + [selected[i].data];
    }
  }

  /** How the publication of a frontend ends; with `Published` and `BackupLeft` the new one is in place. */
  datatype Publication = Published | BackupLeft | NotStarted | Restored | NotRestored

  /** The three places of `_publish_frontend_installation`; each holds a whole directory tree or nothing. */
  class FrontendDirectories<Tree> {
    var installed: Option<Tree>
    var staged: Option<Tree>
    var backup: Option<Tree>

    constructor (installed: Option<Tree>, staged: Tree)
      ensures this.installed == installed && this.staged == Some(staged) && backup == None
    {
      this.installed, this.staged, backup := installed, Some(staged), None;
    }

    /**
      Here the rename of the rollback may fail as well. A frontend is published whole or not at
      all, and the previous one is not lost before the new one is in place.
     */
    method Publish(faults: seq<bool>) returns (outcome: Publication)
      requires staged.Some? && backup.None?
      modifies this
      ensures outcome.Published? || outcome.BackupLeft? <==> staged.None?
      ensures staged.None? ==> installed == old(staged)
      ensures staged.Some? ==> staged == old(staged)
      ensures outcome.NotStarted? || outcome.Restored? ==> installed == old(installed)
      ensures outcome.NotRestored? ==> installed.None? && old(installed).Some?
      ensures backup == if outcome.BackupLeft? || outcome.NotRestored? then old(installed) else None
      ensures Count(faults) == 0 ==> outcome.Published?
    {
      var rest, fault := faults, false;
      var hadPrevious := installed.Some?;
      if hadPrevious {
        fault, rest := NextFault(rest).0, NextFault(rest).1;
        if fault {
          return NotStarted;
        }
        installed, backup := None, installed;
      }
      fault, rest := NextFault(rest).0, NextFault(rest).1;
      if fault {
        if hadPrevious {
          fault, rest := NextFault(rest).0, NextFault(rest).1;
          if fault {
            return NotRestored;
          }
          installed, backup := backup, None;
        }
        return Restored;
      }
      installed, staged := staged, None;
      if hadPrevious {
        fault, rest := NextFault(rest).0, NextFault(rest).1;
        if fault {
          return BackupLeft;
        }
        backup := None;
      }
      return Published;
    }
  }

  function NamesOf(selected: seq<Source>): set<string> {
    set i | 0 <= i < |selected| :: selected[i].name
  }

  lemma InstalledNames(dir: Directory, selected: seq<Source>)
    requires DistinctNames(selected)
    ensures Installed(dir, selected).Keys == dir.Keys + NamesOf(selected)
    ensures forall n :: n in dir && n !in NamesOf(selected) ==> Installed(dir, selected)[n] == dir[n]
  {
    InstalledFiles(dir, selected);
    forall s | s in selected ensures s.name in NamesOf(selected) {
      var i :| 0 <= i < |selected| && selected[i] == s;
    }
    forall i | 0 <= i < |selected| ensures selected[i].name in Installed(dir, selected) {
      assert selected[i] in selected;
    }
  }

  // ----- all, nothing, or stuck

  /** The originals of the files that were touched, in order */
  function Backups(orig: Directory, touched: seq<Source>): seq<Source> {
    if touched == [] then []
    else
      var name := touched[|touched| - 1].name;
      Backups(orig, touched[..|touched| - 1]) + if name in orig then [Source(name, orig[name])] else []
  }

  lemma {:induction false} BackupsAreOriginals(orig: Directory, touched: seq<Source>)
    requires DistinctNames(touched)
    ensures
      var moved := Backups(orig, touched);
      && DistinctNames(moved)
      && (forall m :: m in moved ==> m.name in orig && m.data == orig[m.name] && m.name in NamesOf(touched))
      && (forall n :: n in NamesOf(touched) && n in orig ==> Source(n, orig[n]) in moved)
      && (touched != [] && touched[|touched| - 1].name in orig ==>
            moved != [] && moved[|moved| - 1].name == touched[|touched| - 1].name)
    decreases |touched|
  {
    if touched != [] {
      var before, last := touched[..|touched| - 1], touched[|touched| - 1];
      BackupsAreOriginals(orig, before);
      NamesOfSnoc(before, last);
      assert touched == before + [last];
      hide NamesOf;
      assert forall m :: m in Backups(orig, before) ==> m.name != last.name;
    }
  }

  lemma NamesOfSnoc(before: seq<Source>, last: Source)
    ensures NamesOf(before + [last]) == NamesOf(before) + {last.name}
    ensures DistinctNames(before + [last]) ==> last.name !in NamesOf(before) && DistinctNames(before)
  {
    var all := before + [last];
    assert forall i :: 0 <= i < |before| ==> all[i] == before[i];
    assert all[|before|] == last;
  }

  /** Each of these sources is in place. */
  predicate InPlace(dir: Directory, sources: seq<Source>) {
    forall i :: 0 <= i < |sources| ==> sources[i].name in dir && dir[sources[i].name] == sources[i].data
  }

  /** The two directories hold the same under every other name. */
  ghost predicate SameElsewhere(dir: Directory, orig: Directory, names: set<string>) {
    forall n :: n !in names ==> (n in dir <==> n in orig) && (n in dir ==> dir[n] == orig[n])
  }

  /** What removing these sources comes to, done or not */
  ghost predicate Unlinked(dir: Directory, done: seq<Source>, u: Step) {
    && (u.ok ==> u.dir == dir - NamesOf(done))
    && (!u.ok ==> exists s :: s in done && s.name in u.dir && u.dir[s.name] == s.data)
    && SameElsewhere(u.dir, dir, NamesOf(done))
    && forall n :: n in u.dir ==> n in dir && u.dir[n] == dir[n]
  }

  lemma {:induction false} UnlinkEnds(dir: Directory, done: seq<Source>, faults: seq<bool>)
    requires DistinctNames(done) && InPlace(dir, done)
    ensures Unlinked(dir, done, Unlink(dir, done, faults))
    ensures var u := Unlink(dir, done, faults); Count(faults) == Count(u.rest) + (if u.ok then 0 else 1)
    decreases |done|
  {
    hide Count, NextFault, Unlinked;
    if done == [] {
      NothingUnlinked(dir, faults);
    } else {
      var before, last := done[..|done| - 1], done[|done| - 1];
      assert done == before + [last];
      NamesOfSnoc(before, last);
      OthersStayInPlace(dir, before, last);
      if NextFault(faults).0 {
        NoneUnlinked(dir, done, NextFault(faults).1);
      } else {
        UnlinkEnds(dir - {last.name}, before, NextFault(faults).1);
        OneMoreUnlinked(dir, before, last, Unlink(dir - {last.name}, before, NextFault(faults).1));
      }
    }
  }

  lemma NothingUnlinked(dir: Directory, faults: seq<bool>)
    ensures Unlinked(dir, [], Step(true, dir, faults))
  {
    assert dir - NamesOf([]) == dir;
  }

  lemma NoneUnlinked(dir: Directory, done: seq<Source>, faults: seq<bool>)
    requires done != [] && InPlace(dir, done)
    ensures Unlinked(dir, done, Step(false, dir, faults))
  {
    var last := done[|done| - 1];
    assert last in done && last.name in dir;
  }

  lemma OneMoreUnlinked(dir: Directory, before: seq<Source>, last: Source, u: Step)
    requires Unlinked(dir - {last.name}, before, u)
    ensures Unlinked(dir, before + [last], u)
  {
    NamesOfSnoc(before, last);
    hide NamesOf;
    assert dir - {last.name} - NamesOf(before) == dir - NamesOf(before + [last]);
    if !u.ok {
      var s :| s in before && s.name in u.dir && u.dir[s.name] == s.data;
      assert s in before + [last];
    }
  }

  lemma OthersStayInPlace(dir: Directory, before: seq<Source>, last: Source)
    requires DistinctNames(before + [last]) && InPlace(dir, before + [last])
    ensures InPlace(dir - {last.name}, before)
  {
    var all := before + [last];
    forall i | 0 <= i < |before|
      ensures before[i].name in dir - {last.name} && (dir - {last.name})[before[i].name] == before[i].data
    {
      assert all[i] == before[i] && all[|before|] == last;
    }
  }

  lemma {:induction false} RestoreEnds(dir: Directory, moved: seq<Source>, faults: seq<bool>)
    requires DistinctNames(moved) && NamesOf(moved) !! dir.Keys
    ensures
      var r := Restore(dir, moved, faults);
      && Count(faults) == Count(r.rest) + (if r.ok then 0 else 1)
      && (r.ok ==> r.dir.Keys == dir.Keys + NamesOf(moved))
      && (!r.ok ==> moved != [] && moved[|moved| - 1].name !in r.dir)
      && (forall n :: n in dir ==> n in r.dir && r.dir[n] == dir[n])
      && (forall n :: n in r.dir && n !in dir ==> Source(n, r.dir[n]) in moved)
    decreases |moved|
  {
    hide Count, NextFault;
    if moved == [] {
      assert NamesOf([]) == {};
    } else {
      var first, later := moved[0], moved[1..];
      NamesOfFirst(moved);
      if NextFault(faults).0 {
        LastName(moved);
      } else {
        hide NamesOf;
        RestoreEnds(dir[first.name := first.data], later, NextFault(faults).1);
        assert moved == [first] + later;
      }
    }
  }

  lemma NamesOfFirst(moved: seq<Source>)
    requires moved != [] && DistinctNames(moved)
    ensures NamesOf(moved) == {moved[0].name} + NamesOf(moved[1..]) && moved[0].name !in NamesOf(moved[1..])
    ensures DistinctNames(moved[1..])
  {
    var later := moved[1..];
    forall n | n in NamesOf(moved) ensures n in {moved[0].name} + NamesOf(later) {
      var i :| 0 <= i < |moved| && moved[i].name == n;
      assert i > 0 ==> later[i - 1].name == n;
    }
    assert forall i :: 0 <= i < |later| ==> later[i] == moved[i + 1];
  }

  lemma LastName(moved: seq<Source>)
    requires moved != []
    ensures moved[|moved| - 1].name in NamesOf(moved)
  {
  }

  /**
    After an operation failed: the sources in `done` are in place, what else was touched is
    gone, and nothing else has changed.
   */
  ghost predicate Broken(orig: Directory, done: seq<Source>, touched: seq<Source>, dir: Directory) {
    && DistinctNames(touched) && DistinctNames(done) && NamesOf(done) <= NamesOf(touched)
    && InPlace(dir, done) && SameElsewhere(dir, orig, NamesOf(touched))
    && forall n :: n in NamesOf(touched) && n in dir ==> n in NamesOf(done)
  }

  /** An installed source was not removed, or an original is not home. */
  ghost predicate LeftUndone(dir: Directory, orig: Directory, selected: seq<Source>) {
    || (exists s :: s in selected && s.name in dir && dir[s.name] == s.data)
    || (exists n :: n in orig && n in NamesOf(selected) && n !in dir)
  }

  /** Other files are untouched, and a selected name holds its original, its source, or nothing. */
  ghost predicate IsMixed(dir: Directory, orig: Directory, selected: seq<Source>) {
    && SameElsewhere(dir, orig, NamesOf(selected))
    && forall n :: n in dir && n in NamesOf(selected) ==>
         (n in orig && dir[n] == orig[n]) || Source(n, dir[n]) in selected
  }

  lemma RollbackEnds(orig: Directory, done: seq<Source>, touched: seq<Source>, dir: Directory, faults: seq<bool>)
    requires Broken(orig, done, touched, dir) && forall s :: s in done ==> s in touched
    ensures
      var e := Rollback(dir, done, Backups(orig, touched), faults);
      && Count(faults) == Count(e.rest) + (if e.how.Stuck? then 1 else 0)
      && !e.how.Replaced? && (e.how.RolledBack? ==> e.dir == orig)
      && (e.how.Stuck? ==> LeftUndone(e.dir, orig, touched) && IsMixed(e.dir, orig, touched))
      && (e.how.Stuck? && touched != [] && touched[|touched| - 1].name !in NamesOf(done) ==>
            touched[|touched| - 1].name !in e.dir)
  {
    hide Count, Unlink, Restore;
    var moved := Backups(orig, touched);
    UnlinkEnds(dir, done, faults);
    BackupsAreOriginals(orig, touched);
    var u := Unlink(dir, done, faults);
    if u.ok {
      NamesOfMoved(moved, orig, touched);
      hide NamesOf, Backups, DistinctNames, InPlace;
      assert NamesOf(moved) !! u.dir.Keys;
      RestoreEnds(u.dir, moved, u.rest);
      RestoredIsOriginal(orig, touched, moved, u.dir, Restore(u.dir, moved, u.rest));
    } else {
      hide NamesOf, Backups, DistinctNames;
      UnlinkedIsMixed(orig, done, touched, dir, u.dir);
    }
  }

  lemma UnlinkedIsMixed(orig: Directory, done: seq<Source>, touched: seq<Source>, dir: Directory, now: Directory)
    requires Broken(orig, done, touched, dir) && forall s :: s in done ==> s in touched
    requires SameElsewhere(now, dir, NamesOf(done)) && forall n :: n in now ==> n in dir && now[n] == dir[n]
    ensures IsMixed(now, orig, touched)
  {
    forall n | n in now && n in NamesOf(touched)
      ensures Source(n, now[n]) in touched
    {
      var i :| 0 <= i < |done| && done[i].name == n;
      assert done[i] in done && done[i] == Source(n, now[n]);
    }
  }

  lemma NamesOfMoved(moved: seq<Source>, orig: Directory, touched: seq<Source>)
    requires forall m :: m in moved ==> m.name in orig && m.data == orig[m.name] && m.name in NamesOf(touched)
    requires forall n :: n in NamesOf(touched) && n in orig ==> Source(n, orig[n]) in moved
    ensures forall n :: n in NamesOf(moved) <==> n in NamesOf(touched) && n in orig
  {
    forall n | n in NamesOf(touched) && n in orig ensures n in NamesOf(moved) {
      var i :| 0 <= i < |moved| && moved[i] == Source(n, orig[n]);
      assert moved[i].name == n;
    }
  }

  lemma RestoredIsOriginal(orig: Directory, touched: seq<Source>, moved: seq<Source>, dir: Directory, r: Step)
    requires SameElsewhere(dir, orig, NamesOf(touched)) && NamesOf(touched) !! dir.Keys
    requires forall m :: m in moved ==> m.name in orig && m.data == orig[m.name] && m.name in NamesOf(touched)
    requires forall n :: n in NamesOf(moved) <==> n in NamesOf(touched) && n in orig
    requires r.ok ==> r.dir.Keys == dir.Keys + NamesOf(moved)
    requires !r.ok ==> moved != [] && moved[|moved| - 1].name !in r.dir
    requires forall n :: n in dir ==> n in r.dir && r.dir[n] == dir[n]
    requires forall n :: n in r.dir && n !in dir ==> Source(n, r.dir[n]) in moved
    ensures r.ok ==> r.dir == orig
    ensures !r.ok ==> LeftUndone(r.dir, orig, touched) && IsMixed(r.dir, orig, touched)
    ensures forall n :: n in r.dir && n in NamesOf(touched) ==> n in orig && r.dir[n] == orig[n]
  {
    hide NamesOf;
    if !r.ok {
      var last := moved[|moved| - 1];
      assert last in moved;
    }
  }

  lemma {:induction false} InstallEnds(
    orig: Directory, dir: Directory, done: seq<Source>, todo: seq<Source>, faults: seq<bool>)
    requires DistinctNames(done + todo) && Broken(orig, done, done, dir)
    ensures Ends(orig, done + todo, faults, Install(dir, done, Backups(orig, done), todo, faults))
    decreases |todo|
  {
    if todo == [] {
      assert done + todo == done;
      BrokenIsInstalled(orig, done, dir);
    } else {
      var s, all := todo[0], done + todo;
      var touched, later := done + [s], todo[1..];
      assert touched + later == all;
      assert touched[|touched| - 1] == s && touched[..|touched| - 1] == done;
      PrefixIsDistinct(touched, later);
      NamesOfSnoc(done, s);
      var (moveFails, rest) := if s.name in dir then NextFault(faults) else (false, faults);
      hide Count, NextFault, DistinctNames;
      if moveFails {
        RollbackEnds(orig, done, done, dir, rest);
        FailedToMove(orig, done, todo, Rollback(dir, done, Backups(orig, done), rest));
      } else {
        TouchedIsBroken(orig, done, s, dir);
        var (placeFails, rest') := NextFault(rest);
        if placeFails {
          assert forall x :: x in done ==> x in touched;
          RollbackEnds(orig, done, touched, dir - {s.name}, rest');
          FailedToPlace(orig, touched, later, Rollback(dir - {s.name}, done, Backups(orig, touched), rest'));
        } else {
          InstallEnds(orig, dir[s.name := s.data], touched, later, rest');
        }
      }
    }
  }

  /** What a replacement of these sources may end in, and how many failures that takes */
  ghost predicate Ends(orig: Directory, selected: seq<Source>, faults: seq<bool>, e: End) {
    && Count(faults) == Count(e.rest) + (match e.how case Replaced => 0 case RolledBack => 1 case Stuck => 2)
    && (e.how.Replaced? ==> e.dir == Installed(orig, selected))
    && (e.how.RolledBack? ==> e.dir == orig)
    && (e.how.Stuck? ==>
          LeftUndone(e.dir, orig, selected) && IsMixed(e.dir, orig, selected) && NotAll(e.dir, orig, selected))
  }

  /** Some selected name does not hold its source, unless its original is the same. */
  ghost predicate NotAll(dir: Directory, orig: Directory, selected: seq<Source>) {
    exists s :: s in selected && (s.name in dir ==> s.name in orig && dir[s.name] == orig[s.name])
  }

  lemma PrefixIsDistinct(touched: seq<Source>, later: seq<Source>)
    requires DistinctNames(touched + later)
    ensures DistinctNames(touched)
    ensures NamesOf(touched) <= NamesOf(touched + later)
    ensures forall s :: s in touched ==> s in touched + later
  {
    var all := touched + later;
    assert forall i :: 0 <= i < |touched| ==> all[i] == touched[i];
  }

  lemma BrokenIsInstalled(orig: Directory, done: seq<Source>, dir: Directory)
    requires Broken(orig, done, done, dir)
    ensures dir == Installed(orig, done)
  {
    InstalledFiles(orig, done);
    InstalledNames(orig, done);
    hide Installed;
    forall n | n in NamesOf(done)
      ensures n in dir && dir[n] == Installed(orig, done)[n]
    {
      var i :| 0 <= i < |done| && done[i].name == n;
      assert done[i] in done;
    }
  }

  lemma TouchedIsBroken(orig: Directory, done: seq<Source>, s: Source, dir: Directory)
    requires Broken(orig, done, done, dir) && DistinctNames(done + [s])
    ensures Broken(orig, done, done + [s], dir - {s.name})
    ensures Broken(orig, done + [s], done + [s], dir[s.name := s.data])
    ensures Backups(orig, done + [s]) ==
            Backups(orig, done) + if s.name in dir then [Source(s.name, dir[s.name])] else []
  {
    var touched := done + [s];
    assert touched[|touched| - 1] == s && touched[..|touched| - 1] == done;
    NamesOfSnoc(done, s);
    assert forall i :: 0 <= i < |done| ==> done[i].name in NamesOf(done);
    assert forall i :: 0 <= i < |done| ==> touched[i] == done[i];
  }

  lemma FailedToMove(orig: Directory, done: seq<Source>, todo: seq<Source>, e: End)
    requires todo != [] && DistinctNames(done + todo)
    requires e.how.Stuck? ==> LeftUndone(e.dir, orig, done) && IsMixed(e.dir, orig, done)
    ensures e.how.Stuck? ==>
      LeftUndone(e.dir, orig, done + todo) && IsMixed(e.dir, orig, done + todo) && NotAll(e.dir, orig, done + todo)
  {
    if e.how.Stuck? {
      var all := done + todo;
      PrefixIsDistinct(done, todo);
      assert todo[0] in all && todo[0].name !in NamesOf(done) by {
        assert all[|done|] == todo[0];
        assert forall i :: 0 <= i < |done| ==> all[i] == done[i];
      }
      hide NamesOf, DistinctNames;
    }
  }

  lemma FailedToPlace(orig: Directory, touched: seq<Source>, later: seq<Source>, e: End)
    requires touched != [] && DistinctNames(touched + later)
    requires e.how.Stuck? ==>
      LeftUndone(e.dir, orig, touched) && IsMixed(e.dir, orig, touched) && touched[|touched| - 1].name !in e.dir
    ensures e.how.Stuck? ==>
      var all := touched + later;
      LeftUndone(e.dir, orig, all) && IsMixed(e.dir, orig, all) && NotAll(e.dir, orig, all)
  {
    if e.how.Stuck? {
      PrefixIsDistinct(touched, later);
      assert touched[|touched| - 1] in touched + later;
      hide NamesOf, DistinctNames;
    }
  }

  /**
    A replacement installs everything; or one operation fails and the directory is what it was;
    or one of the rollback fails as well, and something is left undone.
   */
  lemma ReplacementEnds(dir: Directory, selected: seq<Source>, faults: seq<bool>)
    requires DistinctNames(selected)
    ensures Ends(dir, selected, faults, Replace(dir, selected, faults))
  {
    StagedCounts(|selected|, faults);
    var (ok, rest) := Staged(|selected|, faults);
    if ok {
      assert [] + selected == selected;
      InstallEnds(dir, dir, [], selected, rest);
    }
  }

  lemma {:induction false} StagedCounts(n: nat, faults: seq<bool>)
    ensures var (ok, rest) := Staged(n, faults); Count(faults) == Count(rest) + if ok then 0 else 1
  {
    hide Count, NextFault;
    if n > 0 && !NextFault(faults).0 {
      StagedCounts(n - 1, NextFault(faults).1);
    }
  }

  /** Each selected file is new or changes what its name holds. */
  predicate Differ(dir: Directory, selected: seq<Source>) {
    forall s :: s in selected && s.name in dir ==> dir[s.name] != s.data
  }

  /**
    For sources that differ from what is there, the replacement is all or nothing if and only
    if the rollback does not get stuck, that is, unless it takes a second failure.
   */
  lemma AllOrNothingExactly(dir: Directory, selected: seq<Source>, faults: seq<bool>)
    requires DistinctNames(selected) && Differ(dir, selected)
    ensures
      var e := Replace(dir, selected, faults);
      && (e.dir == dir || e.dir == Installed(dir, selected) <==> !e.how.Stuck?)
      && (e.how.Stuck? <==> Count(faults) - Count(e.rest) == 2)
  {
    var e := Replace(dir, selected, faults);
    ReplacementEnds(dir, selected, faults);
    hide Replace, NamesOf, Installed, Count;
    if e.how.Stuck? {
      InstalledFiles(dir, selected);
      var s :| s in selected && (s.name in e.dir ==> s.name in dir && e.dir[s.name] == dir[s.name]);
      assert e.dir != Installed(dir, selected);
      assert e.dir != dir;
    }
  }

  /** Where every selected file replaces another, a failed replacement loses an original exactly if it gets stuck. */
  lemma LosesAnOriginalExactly(dir: Directory, selected: seq<Source>, faults: seq<bool>)
    requires DistinctNames(selected) && Differ(dir, selected) && NamesOf(selected) <= dir.Keys
    ensures
      var e := Replace(dir, selected, faults);
      !e.how.Replaced? ==> ((exists n :: n in dir && (n in e.dir ==> e.dir[n] != dir[n])) <==> e.how.Stuck?)
  {
    var e := Replace(dir, selected, faults);
    ReplacementEnds(dir, selected, faults);
    hide Replace, Installed, Count, DistinctNames;
    forall s | s in selected ensures s.name in dir && dir[s.name] != s.data {
      var i :| 0 <= i < |selected| && selected[i] == s;
      assert selected[i].name in NamesOf(selected);
    }
  }

  /** The file is moved away, its source cannot be placed, and the original cannot be moved home: it is lost. */
  lemma RollbackCanLose(name: string, original: Data, source: Data)
    ensures
      Replace(map[name := original], [Source(name, source)], [false, false, true, true]) == End(Stuck, map[], [])
  {
  }

  // ----- which files

  /** A supported system, with the processor that Linux file names include */
  datatype Platform = Windows | Darwin | Linux(machine: string)

  datatype Outcome = Copied | SourceMissing | Incomplete | ReplacementFailed | RollbackFailed | RemovalFailed

  const DATA_NAME := "user.sites.v3.bin"

  /** `python_version.removeprefix("cp")` */
  function PythonTag(python: string): string {
    if "cp" <= python then python[2..] else python
  }

  function NativeName(platform: Platform, python: string): string {
    match platform
    case Windows => "sites.cp" + PythonTag(python) + "-win_amd64.pyd"
    case Darwin => "sites.cpython-" + PythonTag(python) + "-darwin.so"
    case Linux(machine) => "sites.cpython-" + PythonTag(python) + "-" + machine + "-linux-gnu.so"
  }

  function RuntimeFiles(platform: Platform, python: string): set<string> {
    {DATA_NAME, NativeName(platform, python)}
  }

  /** `_require_runtime_resource_files`, once both files are known to be there */
  function Selected(source: Directory, platform: Platform, python: string): seq<Source>
    requires RuntimeFiles(platform, python) <= source.Keys
  {
    [Source(DATA_NAME, source[DATA_NAME]), Source(NativeName(platform, python), source[NativeName(platform, python)])]
  }

  /** The position of the last dot, or -1 */
  function LastDot(name: string): (i: int)
    ensures -1 <= i < |name|
    ensures i >= 0 ==> name[i] == '.' && forall j :: i < j < |name| ==> name[j] != '.'
    ensures i == -1 ==> forall j :: 0 <= j < |name| ==> name[j] != '.'
  {
    if name == "" then -1
    else if name[|name| - 1] == '.' then |name| - 1
    else LastDot(name[..|name| - 1])
  }

  /** `Path.suffix` of a file name */
  function Suffix(name: string): string {
    var i := LastDot(name);
    if 0 < i < |name| - 1 then name[i..] else ""
  }

  predicate IsNativeLibrary(name: string) {
    "sites." <= name && Lower(Suffix(name)) in [".so", ".pyd", ".dylib"]
  }

  function Others(names: set<string>, active: string): set<string> {
    set n | n in names && IsNativeLibrary(n) && n != active
  }

  /** The directory without native site libraries other than the active one */
  function WithoutOthers(dir: Directory, active: string): Directory {
    map n | n in dir && (IsNativeLibrary(n) ==> n == active) :: dir[n]
  }

  lemma OthersGrow(names: set<string>, name: string, active: string)
    ensures Others(names + {name}, active) ==
            Others(names, active) + if IsNativeLibrary(name) && name != active then {name} else {}
  {
  }

  lemma AllRemoved(dir: Directory, active: string)
    ensures dir - Others(dir.Keys, active) == WithoutOthers(dir, active)
    ensures dir - Others(dir.Keys - dir.Keys, active) == dir
  {
  }

  lemma PartlyRemoved(full: Directory, dir: Directory, done: set<string>, active: string)
    requires dir == full - Others(done, active)
    ensures dir.Items <= full.Items && WithoutOthers(full, active).Items <= dir.Items
  {
    forall item | item in dir.Items ensures item in full.Items {
      assert item.0 in dir && dir[item.0] == item.1;
      assert full[item.0] == item.1;
    }
    forall item | item in WithoutOthers(full, active).Items ensures item in dir.Items {
      assert item.0 in WithoutOthers(full, active) && dir[item.0] == item.1;
    }
  }

  lemma SuffixAfter(stem: string, extension: string)
    requires stem != "" && extension != "" && forall i :: 0 <= i < |extension| ==> extension[i] != '.'
    ensures Suffix(stem + "." + extension) == "." + extension
  {
    var name := stem + "." + extension;
    assert name[|stem|] == '.';
    assert LastDot(name) == |stem| by {
      forall j | |stem| < j < |name| ensures name[j] != '.' {
        assert name[j] == extension[j - |stem| - 1];
      }
    }
    assert name[|stem|..] == "." + extension;
  }

  lemma LowerExtensions()
    ensures Lower(".so") == ".so" && Lower(".pyd") == ".pyd" && Lower(".bin") == ".bin"
  {
    assert ".so"[1..] == "so" && "so"[1..] == "o" && "o"[1..] == "";
    assert ".pyd"[1..] == "pyd" && "pyd"[1..] == "yd" && "yd"[1..] == "d" && "d"[1..] == "";
    assert ".bin"[1..] == "bin" && "bin"[1..] == "in" && "in"[1..] == "n" && "n"[1..] == "";
  }

  /** On every platform the extension is a native site library and the data file is not. */
  lemma TwoNames(platform: Platform, python: string)
    ensures IsNativeLibrary(NativeName(platform, python)) && !IsNativeLibrary(DATA_NAME)
    ensures DATA_NAME != NativeName(platform, python)
  {
    hide IsNativeLibrary;
    var tag := PythonTag(python);
    DataIsNotNative();
    match platform
    case Windows =>
      EndsInLibrary("sites.cp" + tag + "-win_amd64", "pyd");
      assert NativeName(platform, python) == "sites.cp" + tag + "-win_amd64" + "." + "pyd";
    case Darwin =>
      EndsInLibrary("sites.cpython-" + tag + "-darwin", "so");
      assert NativeName(platform, python) == "sites.cpython-" + tag + "-darwin" + "." + "so";
    case Linux(machine) =>
      EndsInLibrary("sites.cpython-" + tag + "-" + machine + "-linux-gnu", "so");
      assert NativeName(platform, python) == "sites.cpython-" + tag + "-" + machine + "-linux-gnu" + "." + "so";
  }

  /** The name of an extension tells its system, its processor on Linux, and its interpreter. */
  lemma NamesTellApart(a: Platform, python: string, b: Platform, other: string)
    requires '-' !in PythonTag(python) && '-' !in PythonTag(other)
    ensures NativeName(a, python) == NativeName(b, other) <==> a == b && PythonTag(python) == PythonTag(other)
  {
    hide PythonTag;
    var p, q := PythonTag(python), PythonTag(other);
    if NativeName(a, python) == NativeName(b, other) {
      match (a, b)
      case (Windows, Windows) => SameMiddle("sites.cp", p, q, "-win_amd64.pyd");
      case (Darwin, Darwin) => SameMiddle("sites.cpython-", p, q, "-darwin.so");
      case (Linux(m), Linux(n)) =>
        SameLinux(p, m, q, n);
      case _ => DifferentEnds(a, python, b, other);
    }
  }

  lemma SameLinux(p: string, m: string, q: string, n: string)
    requires '-' !in p && '-' !in q
    requires "sites.cpython-" + p + "-" + m + "-linux-gnu.so" == "sites.cpython-" + q + "-" + n + "-linux-gnu.so"
    ensures p == q && m == n
  {
    var x, y := "-" + m + "-linux-gnu.so", "-" + n + "-linux-gnu.so";
    assert "sites.cpython-" + p + "-" + m + "-linux-gnu.so" == "sites.cpython-" + (p + x);
    assert "sites.cpython-" + q + "-" + n + "-linux-gnu.so" == "sites.cpython-" + (q + y);
    SameRest("sites.cpython-", p + x, q + y);
    SameHead(p, x, q, y);
    SameMiddle("-", m, n, "-linux-gnu.so");
  }

  lemma SameRest(prefix: string, a: string, b: string)
    requires prefix + a == prefix + b
    ensures a == b
  {
    assert (prefix + a)[|prefix|..] == a && (prefix + b)[|prefix|..] == b;
  }

  lemma SameMiddle(prefix: string, a: string, b: string, suffix: string)
    requires prefix + a + suffix == prefix + b + suffix
    ensures a == b
  {
    var x, y := prefix + a + suffix, prefix + b + suffix;
    assert x[|prefix|..|x| - |suffix|] == a && y[|prefix|..|y| - |suffix|] == b;
  }

  /** Two texts without a dash that are followed by one */
  lemma SameHead(a: string, x: string, b: string, y: string)
    requires a + x == b + y && '-' !in a && '-' !in b && "-" <= x && "-" <= y
    ensures a == b && x == y
  {
    if |a| < |b| {
      DashInLonger(a, x, b, y);
      assert false;
    } else if |b| < |a| {
      DashInLonger(b, y, a, x);
      assert false;
    }
    assert (a + x)[..|a|] == a && (b + y)[..|b|] == b && (a + x)[|a|..] == x && (b + y)[|b|..] == y;
  }

  lemma DashInLonger(a: string, x: string, b: string, y: string)
    requires a + x == b + y && "-" <= x && |a| < |b|
    ensures '-' in b
  {
    assert (a + x)[|a|] == x[0] && (b + y)[|a|] == b[|a|];
  }

  lemma DifferentEnds(a: Platform, python: string, b: Platform, other: string)
    requires a.Windows? != b.Windows? || a.Darwin? != b.Darwin?
    ensures NativeName(a, python) != NativeName(b, other)
  {
    var x, y := NativeName(a, python), NativeName(b, other);
    assert x[|x| - 4] == if a.Windows? then '.' else if a.Darwin? then 'n' else 'u';
    assert y[|y| - 4] == if b.Windows? then '.' else if b.Darwin? then 'n' else 'u';
  }

  lemma DataIsNotNative()
    ensures !IsNativeLibrary(DATA_NAME)
  {
    assert DATA_NAME[0] == 'u';
  }

  lemma EndsInLibrary(stem: string, extension: string)
    requires "sites." <= stem && (extension == "so" || extension == "pyd")
    ensures IsNativeLibrary(stem + "." + extension)
  {
    hide Suffix, Lower;
    SuffixAfter(stem, extension);
    LowerDotted(extension);
    StartsLikeStem("sites.", stem, "." + extension);
    assert stem + "." + extension == stem + ("." + extension);
  }

  lemma LowerDotted(extension: string)
    requires extension == "so" || extension == "pyd"
    ensures Lower("." + extension) in [".so", ".pyd", ".dylib"]
  {
    LowerExtensions();
    hide Lower;
    assert "." + "pyd" == ".pyd" && "." + "so" == ".so";
    if extension == "so" {
      assert [".so", ".pyd", ".dylib"][0] == ".so";
    } else {
      assert [".so", ".pyd", ".dylib"][1] == ".pyd";
    }
  }

  lemma StartsLikeStem(prefix: string, stem: string, rest: string)
    requires prefix <= stem
    ensures prefix <= stem + rest
  {
  }

  /**
    After a copy the active extension is the only native site library left, both runtime files
    hold their sources, and every other file is untouched.
   */
  lemma OnlyActiveExtensionLeft(dir: Directory, source: Directory, platform: Platform, python: string)
    requires RuntimeFiles(platform, python) <= source.Keys
    ensures
      var active := NativeName(platform, python);
      var after := WithoutOthers(Installed(dir, Selected(source, platform, python)), active);
      && (forall n :: n in after && IsNativeLibrary(n) <==> n == active)
      && after[active] == source[active]
      && DATA_NAME in after && after[DATA_NAME] == source[DATA_NAME]
      && (forall n :: n !in RuntimeFiles(platform, python) && !IsNativeLibrary(n) ==>
            (n in after <==> n in dir) && (n in dir ==> after[n] == dir[n]))
  {
    hide IsNativeLibrary, NativeName, Installed;
    TwoNames(platform, python);
    var selected := Selected(source, platform, python);
    InstalledFiles(dir, selected);
    assert selected[0] in selected && selected[1] in selected;
  }
}
