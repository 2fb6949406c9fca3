/** The registry of temporary files on Windows: a doubly linked list of entries, newest
    first. Closing a temporary file deletes it and unlinks its entry; at exit every file
    still in the list is closed, so the list shrinks under the loop that walks it. */
module TempFiles {

  /** What has happened to temporary files so far. */
  datatype Event<F> = Created(f: F) | Closed(f: F)

  function Without<F(==)>(s: seq<F>, f: F): seq<F> {
    if s == [] then [] else if s[0] == f then s[1..] else [s[0]] + Without(s[1..], f)
  }

  /** s without its element i; i == |s| stands for nothing to cut. */
  function Cut<F>(s: seq<F>, i: nat): seq<F> {
    if i < |s| then s[..i] + s[i + 1..] else s
  }

  lemma {:induction false} WithoutAt<F>(s: seq<F>, f: F, i: nat)
    requires i < |s| && s[i] == f && f !in s[..i]
    ensures Without(s, f) == s[..i] + s[i + 1..]
  {
    if i > 0 {
      assert s[0] == s[..i][0];
      assert s[1..][..i - 1] == s[..i][1..];
      WithoutAt(s[1..], f, i - 1);
    }
  }

  lemma {:induction false} WithoutAbsent<F>(s: seq<F>, f: F)
    requires f !in s
    ensures Without(s, f) == s
  {
    if s != [] {
      WithoutAbsent(s[1..], f);
    }
  }

  /** The files open after a history, newest first. */
  function OpenAfter<F(==)>(history: seq<Event<F>>): seq<F> {
    if history == [] then []
    else
      var before := OpenAfter(history[..|history| - 1]);
      match history[|history| - 1]
      case Created(f) => [f] + before
      case Closed(f) => Without(before, f)
  }

  /** No file object is created twice. */
  ghost predicate CreatedOnce<F>(history: seq<Event<F>>) {
    forall i, j :: 0 <= i < j < |history| && history[i].Created? && history[j].Created? ==>
      history[i].f != history[j].f
  }

  lemma HistoryClosed<F>(history: seq<Event<F>>, f: F)
    requires CreatedOnce(history)
    ensures CreatedOnce(history + [Closed(f)])
    ensures OpenAfter(history + [Closed(f)]) == Without(OpenAfter(history), f)
  {
    assert (history + [Closed(f)])[..|history|] == history;
  }

  lemma HistoryCreated<F>(history: seq<Event<F>>, f: F)
    requires CreatedOnce(history) && Created(f) !in history
    ensures CreatedOnce(history + [Created(f)])
    ensures OpenAfter(history + [Created(f)]) == [f] + OpenAfter(history)
  {
    assert (history + [Created(f)])[..|history|] == history;
  }

  /** f was created at step i and has not been closed since. */
  ghost predicate OpenSince<F>(history: seq<Event<F>>, f: F, i: nat) {
    && i < |history| && history[i] == Created(f)
    && forall j :: i < j < |history| ==> history[j] != Closed(f)
  }

  lemma {:induction false} WithoutMembers<F>(s: seq<F>, f: F)
    requires Distinct(s)
    ensures Distinct(Without(s, f))
    ensures forall g :: g in Without(s, f) <==> g in s && g != f
  {
    if i :| 0 <= i < |s| && s[i] == f {
      assert f !in s[..i];
      WithoutAt(s, f, i);
      assert s == s[..i] + [f] + s[i + 1..];
    } else {
      WithoutAbsent(s, f);
    }
  }

  /** How the last step of a history changes what is open. */
  lemma OpenSinceLast<F>(history: seq<Event<F>>, f: F, i: nat)
    requires history != []
    ensures var n := |history| - 1;
            OpenSince(history, f, i) <==>
              || (i == n && history[n] == Created(f))
              || (i < n && history[n] != Closed(f) && OpenSince(history[..n], f, i))
  {
    var n := |history| - 1;
    var before := history[..n];
    assert i < n && OpenSince(history, f, i) ==> OpenSince(before, f, i) && history[n] != Closed(f);
    if i < n && history[n] != Closed(f) && OpenSince(before, f, i) {
      forall j | i < j < |history| ensures history[j] != Closed(f) {
        assert j < n ==> before[j] != Closed(f);
      }
    }
  }

  /** The list of a history holds exactly the files that were created and not closed since,
      each once. */
  lemma {:induction false} OpenAfterIsOpen<F(!new)>(history: seq<Event<F>>)
    requires CreatedOnce(history)
    ensures Distinct(OpenAfter(history))
    ensures forall f :: f in OpenAfter(history) <==> exists i: nat :: OpenSince(history, f, i)
    decreases |history|, 1
  {
    if history != [] {
      var n := |history| - 1;
      var before := history[..n];
      OpenAfterIsOpen(before);
      if history[n].Closed? {
        WithoutMembers(OpenAfter(before), history[n].f);
      } else {
        NotYetCreated(history);
      }
      forall f ensures f in OpenAfter(history) <==> exists i: nat :: OpenSince(history, f, i) {
        if i: nat :| OpenSince(history, f, i) {
          OpenSinceLast(history, f, i);
        }
        if history[n] == Created(f) {
          OpenSinceLast(history, f, n);
        } else if i: nat :| OpenSince(before, f, i) {
          OpenSinceLast(history, f, i);
        }
      }
    }
  }

  lemma NotYetCreated<F(!new)>(history: seq<Event<F>>)
    requires CreatedOnce(history) && history != [] && history[|history| - 1].Created?
    ensures history[|history| - 1].f !in OpenAfter(history[..|history| - 1])
    decreases |history|, 0
  {
    var f := history[|history| - 1].f;
    var before := history[..|history| - 1];
    OpenAfterIsOpen(before);
    if i: nat :| OpenSince(before, f, i) {
      assert false;
    }
  }

  /** The list of a history is newest first. */
  lemma {:induction false} OpenAfterIsNewestFirst<F(!new)>(history: seq<Event<F>>, a: nat, b: nat, i: nat, j: nat)
    requires CreatedOnce(history) && a < b < |OpenAfter(history)|
    requires OpenSince(history, OpenAfter(history)[a], i) && OpenSince(history, OpenAfter(history)[b], j)
    ensures j < i
    decreases |history|
  {
    var n := |history| - 1;
    var files := OpenAfter(history[..n]);
    var f, g := OpenAfter(history)[a], OpenAfter(history)[b];
    OpenSinceLast(history, f, i);
    OpenSinceLast(history, g, j);
    if history[n].Created? {
      NotYetCreated(history);
      assert g == files[b - 1] && g in files;
      if a > 0 {
        assert f == files[a - 1] && f in files;
        OpenAfterIsNewestFirst(history[..n], a - 1, b - 1, i, j);
      }
    } else {
      var a', b' := PlacesBefore(files, history[n].f, a, b);
      OpenAfterIsNewestFirst(history[..n], a', b', i, j);
    }
  }

  lemma PlacesBefore<F>(s: seq<F>, f: F, a: nat, b: nat) returns (a': nat, b': nat)
    requires a < b < |Without(s, f)|
    ensures a' < b' < |s| && Without(s, f)[a] == s[a'] && Without(s, f)[b] == s[b']
  {
    var k := WithoutIndex(s, f);
    a', b' := if a < k then a else a + 1, if b < k then b else b + 1;
  }

  /** Where Without cuts: at k, or nowhere if k is the length. */
  lemma {:induction false} WithoutIndex<F>(s: seq<F>, f: F) returns (k: nat)
    ensures k <= |s|
    ensures Without(s, f) == Cut(s, k)
  {
    if f in s {
      k := 0;
      while s[k] != f
        invariant k < |s| && f !in s[..k] && f in s
        decreases |s| - k
      {
        k := k + 1;
      }
      WithoutAt(s, f, k);
    } else {
      k := |s|;
      WithoutAbsent(s, f);
    }
  }

  /** The files a history closes, in order. */
  function ClosedIn<F>(history: seq<Event<F>>): seq<F> {
    if history == [] then []
    else
      var last := history[|history| - 1];
      ClosedIn(history[..|history| - 1]) + if last.Closed? then [last.f] else []
  }

  function CreatedIn<F>(history: seq<Event<F>>): set<F> {
    if history == [] then {}
    else
      var last := history[|history| - 1];
      CreatedIn(history[..|history| - 1]) + if last.Created? then {last.f} else {}
  }

  lemma {:induction false} CreatedInIff<F>(history: seq<Event<F>>, f: F)
    ensures f in CreatedIn(history) <==> Created(f) in history
    ensures f in ClosedIn(history) <==> Closed(f) in history
  {
    if history != [] {
      var n := |history| - 1;
      assert history == history[..n] + [history[n]];
      CreatedInIff(history[..n], f);
    }
  }

  /** The paths a history deletes, in order: those of the temporary files it closes. */
  function DeletedIn<F(==)>(history: seq<Event<F>>, paths: map<F, string>): seq<string> {
    if history == [] then []
    else
      var last := history[|history| - 1];
      DeletedIn(history[..|history| - 1], paths) + if last.Closed? && last.f in paths then [paths[last.f]] else []
  }

  lemma {:induction false} DeletedInMore<F>(history: seq<Event<F>>, paths: map<F, string>, f: F, path: string)
    requires Closed(f) !in history
    ensures DeletedIn(history, paths[f := path]) == DeletedIn(history, paths)
  {
    if history != [] {
      var n := |history| - 1;
      assert history[n] in history;
      DeletedInMore(history[..n], paths, f, path);
    }
  }

  lemma HistoryGrows<F>(history: seq<Event<F>>, e: Event<F>, paths: map<F, string>)
    ensures ClosedIn(history + [e]) == ClosedIn(history) + if e.Closed? then [e.f] else []
    ensures CreatedIn(history + [e]) == CreatedIn(history) + if e.Created? then {e.f} else {}
    ensures DeletedIn(history + [e], paths) ==
            DeletedIn(history, paths) + if e.Closed? && e.f in paths then [paths[e.f]] else []
  {
    assert (history + [e])[..|history|] == history;
  }

  lemma {:induction false} WithoutOther<F>(s: seq<F>, f: F, g: F)
    requires f != g
    ensures f in Without(s, g) <==> f in s
  {
    if s != [] {
      WithoutOther(s[1..], f, g);
    }
  }

  /** A temporary file that has not been closed is open. */
  lemma {:induction false} NotClosedIsOpen<F>(history: seq<Event<F>>, f: F)
    requires Closed(f) !in history
    ensures f in OpenAfter(history) <==> Created(f) in history
  {
    if history != [] {
      var n := |history| - 1;
      assert history[n] in history && history == history[..n] + [history[n]];
      NotClosedIsOpen(history[..n], f);
      if history[n].Closed? {
        WithoutOther(OpenAfter(history[..n]), f, history[n].f);
      }
    }
  }

  /** vm_file, as far as closing it goes. */
  class VmFile {
    var temporary: bool

    constructor ()
      ensures !temporary
    {
      temporary := false;
    }
  }

  class Entry {
    var next: Entry?
    var prev: Entry?
    var handle: VmFile?
    const path: string

    constructor (path: string)
      ensures next == null && prev == null && handle == null && this.path == path
    {
      next, prev, handle := null, null, null;
      this.path := path;
    }
  }

  ghost predicate Distinct<T>(s: seq<T>) {
    forall i, j :: 0 <= i < j < |s| ==> s[i] != s[j]
  }

  /** i is where f stands in s, or |s| if it does not. */
  ghost predicate IsPlace<T>(s: seq<T>, f: T, i: nat) {
    i <= |s| && f !in s[..i] && (i < |s| ==> s[i] == f)
  }

  lemma CutIsWithout<F>(s: seq<F>, f: F, i: nat)
    requires Distinct(s) && IsPlace(s, f, i)
    ensures Without(s, f) == Cut(s, i) && f !in Cut(s, i)
  {
    if i < |s| {
      WithoutAt(s, f, i);
    } else {
      assert s[..i] == s;
      WithoutAbsent(s, f);
    }
  }

  lemma WithoutPlace<F>(s: seq<F>, i: nat)
    requires Distinct(s) && i < |s|
    ensures Without(s, s[i]) == s[..i] + s[i + 1..]
  {
    assert s[i] !in s[..i];
    WithoutAt(s, s[i], i);
  }

  lemma CutMembers<T>(s: seq<T>, i: nat)
    requires i < |s| && Distinct(s)
    ensures var t := s[..i] + s[i + 1..];
            Distinct(t) && forall x :: x in t ==> x in s && x != s[i]
  {
    var t := s[..i] + s[i + 1..];
    forall k | 0 <= k < |t| ensures t[k] in s && t[k] != s[i] {
      assert t[k] == s[if k < i then k else k + 1];
    }
    forall k, l | 0 <= k < l < |t| ensures t[k] != t[l] {
      assert t[k] == s[if k < i then k else k + 1];
      assert t[l] == s[if l < i then l else l + 1];
    }
  }

  lemma CutTail<T>(s: seq<T>, i: nat)
    requires 0 < i < |s|
    ensures Cut(s, i) != [] && Cut(s, i)[0] == s[0] && Cut(s, i)[1..] == Cut(s[1..], i - 1)
  {
    var t := s[1..];
    forall k | 0 <= k < |s| - 2 ensures Cut(s, i)[1..][k] == Cut(t, i - 1)[k] {
      assert Cut(s, i)[k + 1] == s[if k + 1 < i then k + 1 else k + 2];
      assert Cut(t, i - 1)[k] == t[if k < i - 1 then k else k + 1];
    }
  }

  lemma CutFirst<T>(s: seq<T>)
    requires s != []
    ensures Cut(s, 0) == s[1..]
  {
  }

  lemma Shift<T>(done: seq<T>, todo: seq<T>)
    requires todo != []
    ensures (done + [todo[0]]) + todo[1..] == done + todo
  {
  }

  ghost function Paths(entries: seq<Entry>): seq<string> {
    if entries == [] then [] else [entries[0].path] + Paths(entries[1..])
  }

  /** The paths that files were created with. */
  function PathsOf(files: seq<VmFile>, paths: map<VmFile, string>): seq<string> {
    if files == [] then []
    else [if files[0] in paths then paths[files[0]] else ""] + PathsOf(files[1..], paths)
  }

  ghost function At(s: seq<Entry>, i: int): Entry? {
    if 0 <= i < |s| then s[i] else null
  }

  /** What has been closed and deleted, and the paths in the list, are what the history says;
      `paths` are those that the temporary files were created with. */
  ghost predicate Agree(
      history: seq<Event<VmFile>>, paths: map<VmFile, string>, closed: seq<VmFile>, deleted: seq<string>,
      files: seq<VmFile>, entries: seq<Entry>)
  {
    && closed == ClosedIn(history) && deleted == DeletedIn(history, paths)
    && paths.Keys == CreatedIn(history) && Paths(entries) == PathsOf(files, paths)
  }

  lemma {:induction false} PathsCut(entries: seq<Entry>, files: seq<VmFile>, paths: map<VmFile, string>, i: nat)
    requires i < |entries| == |files| && Paths(entries) == PathsOf(files, paths)
    ensures Paths(Cut(entries, i)) == PathsOf(Cut(files, i), paths)
    ensures files[i] in paths ==> entries[i].path == paths[files[i]]
  {
    var e, f := entries[1..], files[1..];
    assert Paths(entries)[0] == PathsOf(files, paths)[0];
    assert Paths(e) == Paths(entries)[1..] == PathsOf(files, paths)[1..] == PathsOf(f, paths);
    if i == 0 {
      assert Cut(entries, 0) == e && Cut(files, 0) == f;
    } else {
      PathsCut(e, f, paths, i - 1);
      CutTail(entries, i);
      CutTail(files, i);
    }
  }

  lemma {:induction false} PathsMore(files: seq<VmFile>, paths: map<VmFile, string>, f: VmFile, path: string)
    requires f !in files
    ensures PathsOf(files, paths[f := path]) == PathsOf(files, paths)
  {
    if files != [] {
      PathsMore(files[1..], paths, f, path);
    }
  }

  lemma AgreeClosed(
      history: seq<Event<VmFile>>, paths: map<VmFile, string>, closed: seq<VmFile>, deleted: seq<string>,
      files: seq<VmFile>, entries: seq<Entry>, f: VmFile, i: nat,
      deleted1: seq<string>, files1: seq<VmFile>, entries1: seq<Entry>)
    requires Agree(history, paths, closed, deleted, files, entries) && |files| == |entries|
    requires IsPlace(files, f, i) && (f in files <==> Created(f) in history)
    requires deleted1 == deleted + (if i < |entries| then [entries[i].path] else [])
    requires files1 == Cut(files, i) && entries1 == Cut(entries, i)
    ensures Agree(history + [Closed(f)], paths, closed + [f], deleted1, files1, entries1)
  {
    HistoryGrows(history, Closed(f), paths);
    CreatedInIff(history, f);
    if i == |files| {
      assert files[..i] == files;
    } else {
      PathsCut(entries, files, paths, i);
    }
  }

  lemma AgreeCreated(
      history: seq<Event<VmFile>>, paths: map<VmFile, string>, closed: seq<VmFile>, deleted: seq<string>,
      files: seq<VmFile>, entries: seq<Entry>, f: VmFile, e: Entry)
    requires Agree(history, paths, closed, deleted, files, entries)
    requires Closed(f) !in history && f !in files
    ensures Agree(history + [Created(f)], paths[f := e.path], closed, deleted, [f] + files, [e] + entries)
  {
    DeletedInMore(history, paths, f, e.path);
    PathsMore(files, paths, f, e.path);
    HistoryGrows(history, Created(f), paths[f := e.path]);
  }

  /** temp_list_head, with what the kernel and the allocator have been told: handles closed
      and paths deleted, in order, and memory given back. */
  class Registry {
    var head: Entry?
    var closed: seq<VmFile>
    var deleted: seq<string>
    ghost var entries: seq<Entry>
    ghost var files: seq<VmFile>
    ghost var freed: set<object>
    ghost var history: seq<Event<VmFile>>
    ghost var paths: map<VmFile, string>

    /** next and prev mirror each other along `entries`, which starts at the head. */
    ghost predicate Linked()
      reads this`head, this`entries, entries
    {
      && head == At(entries, 0)
      && Distinct(entries)
      && (forall i :: 0 <= i < |entries| ==>
            && entries[i].next == At(entries, i + 1)
            && entries[i].prev == At(entries, i - 1))
    }

    /** Entries and files go together, and nothing in use has been given back. */
    ghost predicate Consistent()
      reads this`head, this`entries, this`files, this`freed, entries, files
    {
      && Linked()
      && |files| == |entries| && Distinct(files)
      && (forall i :: 0 <= i < |entries| ==>
            entries[i].handle == files[i] && files[i].temporary)
      && (forall e :: e in entries ==> e !in freed)
      && (forall f :: f in files ==> f !in freed)
    }

    /** The list is the open temporary files, newest first. */
    ghost predicate Valid()
      reads this, entries, files
    {
      Consistent() && Recorded()
    }

    /** The list and the record are those of the history; a file is given back when closed. */
    ghost predicate Recorded()
      reads this
    {
      && CreatedOnce(history) && files == OpenAfter(history)
      && Agree(history, paths, closed, deleted, files, entries)
      && (forall f :: f in closed ==> f in freed)
    }

    constructor ()
      ensures Valid() && entries == [] && closed == [] && deleted == [] && history == [] && freed == {}
    {
      head, closed, deleted, entries, files, freed, history, paths := null, [], [], [], [], {}, [], map[];
    }

    ghost method Free(o: object)
      requires o !in freed
      modifies this`freed
      ensures freed == old(freed) + {o}
    {
      freed := freed + {o};
    }

    /** tempfile_add_entry */
    method AddEntry(r: Entry)
      requires Linked() && r !in entries && r.next == null && r.prev == null
      modifies this`head, this`entries, r`next, entries`prev
      ensures Linked() && entries == [r] + old(entries)
    {
      if head != null {
        r.next := head;
        head.prev := r;
        head := r;
      } else {
        head := r;
      }
      entries := [r] + entries;
    }

    /** The relinking inside tempfile_remove_entry. */
    method Unlink(p: Entry, ghost i: nat)
      requires Linked() && i < |entries| && p == entries[i]
      modifies this`head, this`entries, entries`next, entries`prev
      ensures Linked() && entries == old(entries[..i] + entries[i + 1..])
    {
      ghost var was := entries;
      if p.prev == null {
        assert i == 0;
        var q := p.next;
        if q != null {
          q.prev := null;
        }
        head := q;
      } else {
        var q := p.prev;
        assert q == was[i - 1];
        q.next := p.next;
        q := p.next;
        if q != null {
          assert q == was[i + 1];
          q.prev := p.prev;
          if q.prev == null {
            assert false;  // the source would move the head here; it never comes to that
          }
        }
      }
      entries := was[..i] + was[i + 1..];
      Relinked(was, i);
    }

    /** What the four assignments leave is the list without entry i. */
    lemma Relinked(was: seq<Entry>, i: nat)
      requires i < |was| && Distinct(was) && entries == was[..i] + was[i + 1..]
      requires head == if i == 0 then At(was, 1) else At(was, 0)
      requires forall j :: 0 <= j < |was| ==>
                 && was[j].next == (if j == i - 1 then At(was, i + 1) else At(was, j + 1))
                 && was[j].prev == (if j == i + 1 then At(was, i - 1) else At(was, j - 1))
      ensures Linked()
    {
      forall k | 0 <= k < |entries|
        ensures entries[k].next == At(entries, k + 1) && entries[k].prev == At(entries, k - 1)
      {
        assert entries[k] == was[if k < i then k else k + 1];
      }
    }

    /** tempfile_remove_entry */
    method RemoveEntry(r: Entry)
      requires Linked() && forall e :: e in entries ==> e !in freed
      modifies this`head, this`entries, this`freed, entries`next, entries`prev
      ensures Linked() && entries == Without(old(entries), r)
      ensures freed == old(freed) + if r in old(entries) then {r} else {}
    {
      var p := head;
      ghost var i, gone, was := 0, false, entries;
      while p != null
        invariant 0 <= i <= |was| && Linked()
        invariant if gone then p == null && r in was && entries == Without(was, r) && freed == old(freed) + {r}
                  else p == At(was, i) && r !in was[..i] && entries == was && freed == old(freed)
        decreases |was| - i, p
      {
        assert p !in freed;
        if p == r {
          Unlink(p, i);
          WithoutAt(was, r, i);
          Free(p);
          p := null;
          gone := true;
        } else {
          p := p.next;
          i := i + 1;
        }
      }
      if !gone {
        assert was[..i] == was;
        WithoutAbsent(was, r);
      }
    }

    lemma StillConsistent(was: seq<Entry>, wasFiles: seq<VmFile>, i: nat)
      requires i < |was| == |wasFiles| && Distinct(was) && Distinct(wasFiles)
      requires forall j :: 0 <= j < |was| ==> was[j].handle == wasFiles[j] && wasFiles[j].temporary
      requires forall e :: e in was && e != was[i] ==> e !in freed
      requires forall f :: f in wasFiles ==> f !in freed
      requires Linked() && entries == was[..i] + was[i + 1..] && files == wasFiles[..i] + wasFiles[i + 1..]
      ensures Consistent()
    {
      CutMembers(was, i);
      CutMembers(wasFiles, i);
      forall k | 0 <= k < |entries| ensures entries[k].handle == files[k] && files[k].temporary {
        assert entries[k] == was[if k < i then k else k + 1];
      }
    }

    /** Deletes the file of entry i and unlinks the entry. */
    method Drop(p: Entry, ghost i: nat)
      requires Consistent() && i < |entries| && p == entries[i]
      modifies this`head, this`entries, this`files, this`freed, this`deleted, entries`next, entries`prev
      ensures Consistent()
      ensures entries == old(entries[..i] + entries[i + 1..])
      ensures files == old(files[..i] + files[i + 1..])
      ensures deleted == old(deleted) + [p.path]
      ensures freed == old(freed) + {p}
    {
      ghost var was, wasFiles := entries, files;
      WithoutPlace(was, i);
      deleted := deleted + [p.path];
      RemoveEntry(p);
      files := wasFiles[..i] + wasFiles[i + 1..];
      StillConsistent(was, wasFiles, i);
    }

    /** tempfile_delete_by_handle: deletes the file and unlinks the entry of the handle, if
        it is in the list; `i` is its place or the length of the list. */
    method DeleteByHandle(fd: VmFile) returns (ghost i: nat)
      requires Consistent()
      modifies this`head, this`entries, this`files, this`freed, this`deleted, entries`next, entries`prev
      ensures Consistent()
      ensures IsPlace(old(files), fd, i)
      ensures entries == Cut(old(entries), i) && files == Cut(old(files), i)
      ensures files == Without(old(files), fd) && fd !in files
      ensures deleted == old(deleted) + if i < |old(files)| then [old(entries)[i].path] else []
      ensures freed == old(freed) + if i < |old(files)| then {old(entries)[i]} else {}
    {
      ghost var was := files;
      var p := head;
      i := 0;
      while p != null
        invariant i <= |entries| && p == At(entries, i)
        invariant fd !in files[..i]
        decreases |entries| - i
      {
        assert p !in freed;
        if p.handle == fd {
          CutIsWithout(was, fd, i);
          Drop(p, i);
          return;
        } else {
          p := p.next;
        }
        i := i + 1;
      }
      CutIsWithout(was, fd, i);
    }

    /** Gives back a file object that is no longer in the list. */
    ghost method FreeFile(fd: VmFile)
      requires Consistent() && fd !in files && fd !in freed
      modifies this`freed
      ensures Consistent() && freed == old(freed) + {fd}
    {
      Free(fd);
    }

    /** The lists of a registry whose file at place i has been closed, or whose lists do not
        have the file. */
    twostate predicate Closing(fd: VmFile, i: nat)
      reads this
    {
      && IsPlace(old(files), fd, i)
      && entries == Cut(old(entries), i) && files == Cut(old(files), i)
      && closed == old(closed) + [fd]
      && deleted == old(deleted) + (if i < |old(entries)| then [old(entries)[i].path] else [])
      && old(freed) <= freed && fd in freed && (i < |old(entries)| ==> old(entries[i]) in freed)
    }

    /** The kernel handle, the path and the entry of a file, and the file object itself. */
    method Release(fd: VmFile) returns (ghost i: nat)
      requires Consistent() && fd !in freed
      modifies this`head, this`entries, this`files, this`freed, this`closed, this`deleted, entries`next, entries`prev
      ensures Consistent() && Closing(fd, i)
      ensures files == Without(old(files), fd)
    {
      closed := closed + [fd];
      assert Consistent();
      if fd.temporary {
        i := DeleteByHandle(fd);
      } else {
        i := |files|;
        CutIsWithout(files, fd, i);
      }
      FreeFile(fd);
    }

    /** vm_file_fclose. Any open file may be closed; a temporary one is deleted as well. */
    method Fclose(fd: VmFile?) returns (rtv: int, ghost i: nat)
      requires Valid() && (fd != null ==> fd !in freed)
      modifies this, entries`next, entries`prev
      ensures Valid()
      ensures if fd == null then rtv == 0 && unchanged(this)
              else rtv == 1 && history == old(history) + [Closed(fd)] && paths == old(paths) && Closing(fd, i)
    {
      rtv, i := 0, 0;
      if fd != null {
        i := CloseOpen(fd);
        rtv := 1;
      }
    }

    method CloseOpen(fd: VmFile) returns (ghost i: nat)
      requires Valid() && fd !in freed
      modifies this`head, this`entries, this`files, this`freed, this`closed, this`deleted, this`history
      modifies entries`next, entries`prev
      ensures Valid() && history == old(history) + [Closed(fd)] && Closing(fd, i)
    {
      ghost var was, wasFiles, wasClosed, wasDeleted := entries, files, closed, deleted;
      i := Release(fd);
      LogClosed(wasClosed, wasDeleted, wasFiles, was, fd, i);
    }

    /** The history goes on when a file has been closed. */
    ghost method LogClosed(
        wasClosed: seq<VmFile>, wasDeleted: seq<string>, wasFiles: seq<VmFile>, was: seq<Entry>, fd: VmFile, i: nat)
      requires CreatedOnce(history) && wasFiles == OpenAfter(history) && IsPlace(wasFiles, fd, i)
      requires Agree(history, paths, wasClosed, wasDeleted, wasFiles, was) && |wasFiles| == |was| && fd !in wasClosed
      requires files == Cut(wasFiles, i) == Without(wasFiles, fd) && entries == Cut(was, i)
      requires closed == wasClosed + [fd]
      requires deleted == wasDeleted + if i < |was| then [was[i].path] else []
      requires forall f :: f in closed ==> f in freed
      modifies this`history
      ensures Recorded() && history == old(history) + [Closed(fd)]
    {
      CreatedInIff(history, fd);
      NotClosedIsOpen(history, fd);
      HistoryClosed<VmFile>(history, fd);
      AgreeClosed(history, paths, wasClosed, wasDeleted, wasFiles, was, fd, i, deleted, files, entries);
      history := history + [Closed(fd)];
    }

    /** One round of the loop below, seen from the list. */
    method CloseFirst(q: Entry)
      requires Valid() && |entries| > 0 && q == entries[0] && q.handle != null
      modifies this, entries`next, entries`prev
      ensures Valid() && entries == old(entries)[1..] && files == old(files)[1..]
      ensures closed + files == old(closed + files) && deleted + Paths(entries) == old(deleted + Paths(entries))
      ensures old(freed) <= freed && q in freed && old(files)[0] in freed
      ensures history == old(history) + [Closed(q.handle)] && paths == old(paths)
    {
      assert q.handle == files[0];
      CutFirst(entries);
      CutFirst(files);
      Shift(closed, files);
      Shift(deleted, Paths(entries));
      var _, i := Fclose(q.handle);
      assert i == 0;
    }

    /** tempfile_delete_all: the walk keeps a pointer to the next entry while vm_file_fclose
        unlinks and frees the current one. */
    method DeleteAll()
      requires Valid()
      modifies this, entries`next, entries`prev
      ensures Valid() && entries == [] && files == [] && head == null && paths == old(paths)
      ensures closed == old(closed) + old(files)
      ensures deleted == old(deleted) + Paths(old(entries))
      ensures forall i :: 0 <= i < |old(entries)| ==> old(entries)[i] in freed && old(files)[i] in freed
    {
      ghost var was, wasFiles := entries, files;
      ghost var n := 0;
      var p := head;
      while p != null
        invariant Valid() && p == At(entries, 0) && paths == old(paths)
        invariant n <= |was| && entries == was[n..] && files == wasFiles[n..]
        invariant closed + files == old(closed + files)
        invariant deleted + Paths(entries) == old(deleted + Paths(entries))
        invariant forall i :: 0 <= i < n ==> was[i] in freed && wasFiles[i] in freed
        decreases |entries|
      {
        var q := p;
        p := p.next;
        assert q == was[n] && files[0] == wasFiles[n];
        assert was[n..][1..] == was[n + 1..] && wasFiles[n..][1..] == wasFiles[n + 1..];
        CloseFirst(q);
        n := n + 1;
        assert p != null ==> p == entries[0] && p !in freed;
      }
    }

    /** Puts a new entry with its file in front. */
    method Enlist(t: Entry, f: VmFile)
      requires Consistent() && t !in entries && t !in freed && t.next == null && t.prev == null
      requires t.handle == f && f.temporary && f !in files && f !in freed
      modifies this`head, this`entries, this`files, t`next, entries`prev
      ensures Consistent() && entries == [t] + old(entries) && files == [f] + old(files)
    {
      ghost var was := entries;
      AddEntry(t);
      files := [f] + files;
      assert forall i :: 0 < i < |entries| ==> entries[i] == was[i - 1];
    }

    method Record(t: Entry, f: VmFile)
      requires Valid() && t !in entries && t !in freed && t.next == null && t.prev == null
      requires t.handle == f && f.temporary && f !in files && f !in freed && Created(f) !in history
      modifies this`head, this`entries, this`files, this`history, this`paths, t`next, entries`prev
      ensures Valid() && entries == [t] + old(entries) && files == [f] + old(files)
      ensures history == old(history) + [Created(f)] && paths == old(paths)[f := t.path]
    {
      ghost var was, wasFiles := entries, files;
      Enlist(t, f);
      LogCreated(wasFiles, was, f, t);
    }

    /** The history goes on when a file has been created. */
    ghost method LogCreated(wasFiles: seq<VmFile>, was: seq<Entry>, f: VmFile, t: Entry)
      requires CreatedOnce(history) && wasFiles == OpenAfter(history) && f !in wasFiles
      requires Agree(history, paths, closed, deleted, wasFiles, was) && Created(f) !in history && f !in freed
      requires files == [f] + wasFiles && entries == [t] + was
      requires forall f :: f in closed ==> f in freed
      modifies this`history, this`paths
      ensures Recorded() && history == old(history) + [Created(f)] && paths == old(paths)[f := t.path]
    {
      CreatedInIff(history, f);
      HistoryCreated(history, f);
      AgreeCreated(history, paths, closed, deleted, wasFiles, was, f, t);
      history := history + [Created(f)];
      paths := paths[f := t.path];
    }

    ghost method FreeEntry(t: Entry)
      requires Valid() && t !in entries && t !in freed
      modifies this`freed
      ensures Valid() && freed == old(freed) + {t}
    {
      Free(t);
    }

    /** The part of tempfile_create_file behind a successful vm_file_fopen. */
    method Open(t: Entry) returns (f: VmFile)
      requires Valid() && t !in entries && t !in freed && t.next == null && t.prev == null
      modifies this`head, this`entries, this`files, this`history, this`paths, t`handle, t`next, entries`prev
      ensures Valid() && fresh(f) && entries == [t] + old(entries) && files == [f] + old(files)
      ensures history == old(history) + [Created(f)] && paths == old(paths)[f := t.path]
    {
      f := new VmFile();
      t.handle := f;
      f.temporary := true;
      Record(t, f);
    }

    /** tempfile_create_file; the flags are the outcomes of the two allocations and of
        vm_file_fopen. When the file cannot be opened the entry is neither linked nor freed. */
    method CreateFile(fname: string, entryOk: bool, pathOk: bool, openOk: bool) returns (rtv: VmFile?)
      requires Valid()
      modifies this`head, this`entries, this`files, this`freed, this`history, this`paths, entries`prev
      ensures Valid()
      ensures rtv != null <==> entryOk && pathOk && openOk
      ensures rtv == null ==> entries == old(entries) && files == old(files) && history == old(history)
      ensures old(freed) <= freed && (freed == old(freed) <==> !entryOk || pathOk)
      ensures rtv != null ==>
                && fresh(rtv) && rtv !in freed && files == [rtv] + old(files)
                && history == old(history) + [Created(rtv)] && paths == old(paths)[rtv := fname]
                && |entries| > 0 && entries[0].path == fname && entries[1..] == old(entries)
    {
      rtv := null;
      if entryOk {
        var t := new Entry(fname);
        if pathOk {
          if openOk {
            rtv := Open(t);
          }
        } else {
          FreeEntry(t);
        }
      }
    }
  }
}
