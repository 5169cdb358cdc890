/**
 * The zip side of the tool, on an abstract archive: an ordered sequence of
 * named entries. `FindFile` and `ExtractFromZip` read one entry;
 * `AddToZip` rebuilds the archive with one entry replaced, the way
 * `addToZipNative` does it (through a Go map, so order is not kept and
 * duplicate names collapse, the last one winning).
 */
module Archive {

  import opened Wrappers

  type Byte = x: int | 0 <= x < 256

  /** One archive member: its path name and its uncompressed content. */
  datatype Entry = Entry(name: string, data: seq<Byte>)

  predicate HasName(files: seq<Entry>, name: string)
  {
    exists i :: 0 <= i < |files| && files[i].name == name
  }

  /** No later entry carries the same name as entry `i`. */
  predicate IsLastOfName(files: seq<Entry>, i: int)
    requires 0 <= i < |files|
  {
    forall k :: i < k < |files| ==> files[k].name != files[i].name
  }

  /** No earlier entry carries the same name as entry `i`. */
  predicate IsFirstOfName(files: seq<Entry>, i: int)
    requires 0 <= i < |files|
  {
    forall j :: 0 <= j < i ==> files[j].name != files[i].name
  }

  /** `e` is an entry of `files` that no later entry of the same name follows. */
  predicate IsLastEntry(files: seq<Entry>, e: Entry)
  {
    exists j :: 0 <= j < |files| && files[j] == e && IsLastOfName(files, j)
  }

  predicate DistinctNames(files: seq<Entry>)
  {
    forall i, j :: 0 <= i < j < |files| ==> files[i].name != files[j].name
  }

  /**
   * `findFile`: the index of the first entry whose name equals `name`
   * exactly, or `None` when there is none.
   */
  method FindFile(files: seq<Entry>, name: string) returns (r: Option<nat>)
    ensures r.Some? ==> r.value < |files| && files[r.value].name == name && IsFirstOfName(files, r.value)
    ensures r.None? <==> !HasName(files, name)
  {
    for i := 0 to |files|
      invariant forall j :: 0 <= j < i ==> files[j].name != name
    {
      if files[i].name != name {
        continue;
      }
      return Some(i);
    }
    return None;
  }

  /**
   * `extractFromZip`: the content of the first entry named `name`; a missing
   * entry is the fatal "file is missing" error.
   */
  method ExtractFromZip(files: seq<Entry>, name: string) returns (r: Result<seq<Byte>>)
    ensures r.Failure? <==> !HasName(files, name)
    ensures r.Failure? ==> r.error == EntryNotFound(name)
    ensures r.Success? ==>
      exists i :: 0 <= i < |files| && files[i].name == name && IsFirstOfName(files, i) && r.value == files[i].data
  {
    var f := FindFile(files, name);
    if f.None? {
      return Failure(EntryNotFound(name));
    }
    return Success(files[f.value].data);
  }

  /**
   * The `existingFiles` map after the copy loop over `files`: every entry
   * not named `skip`, keyed by name, later entries overwriting earlier ones.
   */
  function LastWins(files: seq<Entry>, skip: string): map<string, seq<Byte>>
    decreases |files|
  {
    if files == [] then map[]
    else
      var m := LastWins(files[..|files| - 1], skip);
      var f := files[|files| - 1];
      if f.name == skip then m else m[f.name := f.data]
  }

  /**
   * What the map holds: exactly the names other than `skip`, each with the
   * content of the last entry of that name.
   */
  lemma {:induction false} LastWinsAt(files: seq<Entry>, skip: string, n: string)
    ensures n in LastWins(files, skip) <==> n != skip && HasName(files, n)
    ensures n in LastWins(files, skip) ==>
      exists i :: 0 <= i < |files| && files[i].name == n && files[i].data == LastWins(files, skip)[n] && IsLastOfName(files, i)
    decreases |files|
  {
    if files != [] {
      var p := files[..|files| - 1];
      var f := files[|files| - 1];
      LastWinsAt(p, skip, n);
      assert forall i :: 0 <= i < |p| ==> p[i] == files[i];
      if HasName(p, n) {
        var i :| 0 <= i < |p| && p[i].name == n;
        assert files[i].name == n;
      }
      if n in LastWins(files, skip) {
        if f.name == n {
          assert IsLastOfName(files, |files| - 1);
        } else {
          var i :| 0 <= i < |p| && p[i].name == n && p[i].data == LastWins(p, skip)[n] && IsLastOfName(p, i);
          assert IsLastOfName(files, i);
        }
      }
    }
  }

  function NameSet(files: seq<Entry>): set<string>
  {
    set i | 0 <= i < |files| :: files[i].name
  }

  /** With distinct names, an entry list has as many names as entries. */
  lemma {:induction false} DistinctNameSetSize(files: seq<Entry>)
    requires DistinctNames(files)
    ensures |NameSet(files)| == |files|
    decreases |files|
  {
    if files != [] {
      var p := files[..|files| - 1];
      var f := files[|files| - 1];
      assert DistinctNames(p);
      DistinctNameSetSize(p);
      assert NameSet(files) == NameSet(p) + {f.name};
      assert f.name !in NameSet(p);
    }
  }

  /** The entries the rewriter starts from: none when there is no archive yet. */
  function Input(zip: Option<seq<Entry>>): seq<Entry>
  {
    if zip.Some? then zip.value else []
  }

  /** `copies` lists the map `m`: each key once, with its value, and nothing else. */
  predicate ListsMap(copies: seq<Entry>, m: map<string, seq<Byte>>)
  {
    && DistinctNames(copies)
    && (forall i :: 0 <= i < |copies| ==> copies[i].name in m && copies[i].data == m[copies[i].name])
    && (forall n :: n in m ==> exists i :: 0 <= i < |copies| && copies[i].name == n)
  }

  /** Every copy is the last input entry of its name, and none is named `skip`. */
  lemma CopiesComeFromInput(input: seq<Entry>, skip: string, copies: seq<Entry>)
    requires ListsMap(copies, LastWins(input, skip))
    ensures forall i :: 0 <= i < |copies| ==> copies[i].name != skip
    ensures forall i :: 0 <= i < |copies| ==>
      IsLastEntry(input, copies[i])
  {
    var m := LastWins(input, skip);
    forall i | 0 <= i < |copies|
      ensures copies[i].name != skip
      ensures IsLastEntry(input, copies[i])
    {
      var n := copies[i].name;
      LastWinsAt(input, skip, n);
      var j :| 0 <= j < |input| && input[j].name == n && input[j].data == m[n] && IsLastOfName(input, j);
      assert input[j] == copies[i];
    }
  }

  /** Every input name other than `skip` has a copy. */
  lemma InputNamesCopied(input: seq<Entry>, skip: string, copies: seq<Entry>)
    requires ListsMap(copies, LastWins(input, skip))
    ensures forall j :: 0 <= j < |input| && input[j].name != skip ==>
      exists i :: 0 <= i < |copies| && copies[i].name == input[j].name
  {
    forall j | 0 <= j < |input| && input[j].name != skip
      ensures exists i :: 0 <= i < |copies| && copies[i].name == input[j].name
    {
      LastWinsAt(input, skip, input[j].name);
    }
  }

  /** The copies carry exactly the input's names other than `skip`. */
  lemma CopyNames(input: seq<Entry>, skip: string, copies: seq<Entry>)
    requires ListsMap(copies, LastWins(input, skip))
    ensures NameSet(copies) == NameSet(input) - {skip}
  {
    CopiesComeFromInput(input, skip, copies);
    InputNamesCopied(input, skip, copies);
    forall n | n in NameSet(copies) ensures n in NameSet(input) && n != skip {
      var i :| 0 <= i < |copies| && copies[i].name == n;
      assert IsLastEntry(input, copies[i]);
      var j :| 0 <= j < |input| && input[j] == copies[i] && IsLastOfName(input, j);
    }
    forall n | n in NameSet(input) - {skip} ensures n in NameSet(copies) {
      var j :| 0 <= j < |input| && input[j].name == n;
      var i :| 0 <= i < |copies| && copies[i].name == input[j].name;
    }
  }

  /** With distinct input names, one copy is made per input entry other than `skip`. */
  lemma CopyCount(input: seq<Entry>, skip: string, copies: seq<Entry>)
    requires ListsMap(copies, LastWins(input, skip))
    requires DistinctNames(input)
    ensures |copies| + (if HasName(input, skip) then 1 else 0) == |input|
  {
    CopyNames(input, skip, copies);
    DistinctNameSetSize(input);
    DistinctNameSetSize(copies);
    if HasName(input, skip) {
      var j :| 0 <= j < |input| && input[j].name == skip;
      assert skip in NameSet(input);
      assert NameSet(input) == NameSet(copies) + {skip};
    } else {
      assert skip !in NameSet(input);
    }
  }

  /** The first loop of `addToZipNative`: copy every entry not named `skip` into a map keyed by name. */
  method CollectExisting(files: seq<Entry>, skip: string) returns (existing: map<string, seq<Byte>>)
    ensures existing == LastWins(files, skip)
  {
    existing := map[];
    for i := 0 to |files|
      invariant existing == LastWins(files[..i], skip)
    {
      assert files[..i + 1][..i] == files[..i];
      var file := files[i];
      if file.name == skip {
        continue;
      }
      existing := existing[file.name := file.data];
    }
    assert files[..|files|] == files;
  }

  /**
   * The second loop of `addToZipNative`: write out every map entry. Go's map
   * iteration order is unspecified, so the next key is any key not yet written.
   */
  method EmitExisting(existing: map<string, seq<Byte>>) returns (copies: seq<Entry>)
    ensures ListsMap(copies, existing)
  {
    copies := [];
    var remaining := existing.Keys;
    while remaining != {}
      invariant remaining <= existing.Keys
      invariant DistinctNames(copies)
      invariant forall i :: 0 <= i < |copies| ==>
        copies[i].name in existing && copies[i].name !in remaining && copies[i].data == existing[copies[i].name]
      invariant forall n :: n in existing && n !in remaining ==> exists i :: 0 <= i < |copies| && copies[i].name == n
      decreases remaining
    {
      var name :| name in remaining;
      ghost var prev := copies;
      copies := copies + [Entry(name, existing[name])];
      remaining := remaining - {name};
      forall n | n in existing && n !in remaining
        ensures exists i :: 0 <= i < |copies| && copies[i].name == n
      {
        if n == name {
          assert copies[|prev|].name == n;
        } else {
          var i :| 0 <= i < |prev| && prev[i].name == n;
          assert copies[i].name == n;
        }
      }
    }
  }

  /**
   * `addToZipNative`: rebuild the archive with `fileName` holding `data`.
   * `zip` is `None` when no archive exists yet. The copies come out in an
   * unspecified order (Go map iteration), each name once with its last
   * content; the new entry comes last.
   */
  method AddToZip(zip: Option<seq<Entry>>, fileName: string, data: seq<Byte>) returns (out: seq<Entry>)
    ensures |out| >= 1 && out[|out| - 1] == Entry(fileName, data)
    ensures DistinctNames(out)
    ensures forall i :: 0 <= i < |out| - 1 ==>
      IsLastEntry(Input(zip), out[i])
    ensures forall j :: 0 <= j < |Input(zip)| && Input(zip)[j].name != fileName ==>
      exists i :: 0 <= i < |out| - 1 && out[i].name == Input(zip)[j].name
    ensures zip.None? ==> out == [Entry(fileName, data)]
    ensures |out| == |NameSet(Input(zip)) - {fileName}| + 1
    ensures DistinctNames(Input(zip)) ==>
      |out| == |Input(zip)| + (if HasName(Input(zip), fileName) then 0 else 1)
  {
    var existing: map<string, seq<Byte>> := map[];
    if zip.Some? {
      existing := CollectExisting(zip.value, fileName);
    }
    var copies := EmitExisting(existing);
    out := copies + [Entry(fileName, data)];
    assert out[..|copies|] == copies;
    CopiesComeFromInput(Input(zip), fileName, copies);
    InputNamesCopied(Input(zip), fileName, copies);
    CopyNames(Input(zip), fileName, copies);
    DistinctNameSetSize(copies);
    if DistinctNames(Input(zip)) {
      CopyCount(Input(zip), fileName, copies);
    }
  }

  /** A zip holding two entries of the same name keeps only the later one when rewritten. */
  lemma DuplicateNamesCollapse(a: seq<Byte>, b: seq<Byte>)
    ensures LastWins([Entry("x", a), Entry("x", b)], "t") == map["x" := b]
  {
    var files := [Entry("x", a), Entry("x", b)];
    assert files[..1] == [Entry("x", a)];
    assert files[..1][..0] == [];
    assert LastWins(files[..1], "t") == map["x" := a];
  }
}
