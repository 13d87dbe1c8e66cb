/** The translation memory: a map from cache keys to entries, its file of one line per
    entry, and the lookups that hide blank translations. The JSON library is a pair of
    functions of which only the round trip is assumed. */
module TranslationMemory {
  import opened Wrappers
  import opened Text
  import opened Ordering

  datatype Entry = Entry(
    cacheKey: string, segmentId: string, sourcePath: string, textHash: string, text: string, translated: string,
    provider: string, model: string, srcLang: string, tgtLang: string, updatedAt: string
  )

  type Entries = map<string, Entry>

  /** One line of text with no blanks at its ends. */
  predicate IsTrimmedLine(s: string) {
    s != "" && '\n' !in s && !IsSpace(s[0]) && !IsSpace(s[|s| - 1])
  }

  /** Encoding an entry gives one line; decoding undoes it. */
  datatype Codec = Codec(encode: Entry -> string, decode: string -> Option<Entry>)
  {
    ghost predicate Lawful() {
      forall e: Entry :: decode(encode(e)) == Some(e) && IsTrimmedLine(encode(e))
    }
  }

  function Lookup(entries: Entries, key: string): Option<Entry> {
    if key !in entries || IsBlank(entries[key].translated) then None else Some(entries[key])
  }

  function Stored(entries: Entries, e: Entry): Entries {
    if e.cacheKey == "" then entries else entries[e.cacheKey := e]
  }

  /** Loading takes a line only if it has a key and a translation. */
  function Loaded(entries: Entries, e: Entry): Entries {
    if e.cacheKey != "" && !IsBlank(e.translated) then entries[e.cacheKey := e] else entries
  }

  function LoadLines(codec: Codec, lines: seq<string>, entries: Entries): Option<Entries> {
    if lines == [] then Some(entries)
    else if TrimSpace(lines[0]) == "" then LoadLines(codec, lines[1..], entries)
    else
      var e := codec.decode(TrimSpace(lines[0]));
      if e.None? then None else LoadLines(codec, lines[1..], Loaded(entries, e.value))
  }

  /** A missing file is an empty memory; a line that cannot be decoded is an error. */
  function LoadFile(codec: Codec, file: Option<string>): Option<Entries> {
    if file.None? then Some(map[]) else LoadLines(codec, Split(file.value), map[])
  }

  function Lines(codec: Codec, entries: Entries, keys: seq<string>): string
    requires forall k :: k in keys ==> k in entries
  {
    if keys == [] then "" else codec.encode(entries[keys[0]]) + "\n" + Lines(codec, entries, keys[1..])
  }

  ghost function FileOf(codec: Codec, entries: Entries): string {
    Lines(codec, entries, InOrder(entries.Keys))
  }

  /** Every entry is stored under its own, non-empty key. */
  predicate Consistent(entries: Entries) {
    forall k :: k in entries ==> k != "" && entries[k].cacheKey == k
  }

  class Memory {
    var entries: Entries

    constructor ()
      ensures entries == map[]
    {
      entries := map[];
    }

    /** Reads the file into this memory; false when a line cannot be decoded. */
    method Load(codec: Codec, file: Option<string>) returns (ok: bool)
      modifies this
      ensures ok <==> LoadFile(codec, file).Some?
      ensures ok ==> entries == LoadFile(codec, file).value && Consistent(entries)
    {
      hide Split, TrimSpace, IsBlank;
      entries := map[];
      if file.None? {
        return true;
      }
      var lines := Split(file.value);
      for i := 0 to |lines|
        invariant LoadLines(codec, lines[i..], entries) == LoadFile(codec, file)
        invariant Consistent(entries)
      {
        assert lines[i..][0] == lines[i] && lines[i..][1..] == lines[i + 1..];
        var trimmed := TrimSpace(lines[i]);
        if trimmed != "" {
          var entry := codec.decode(trimmed);
          if entry.None? {
            return false;
          }
          if entry.value.cacheKey != "" && !IsBlank(entry.value.translated) {
            entries := entries[entry.value.cacheKey := entry.value];
          }
        }
      }
      return true;
    }

    method Get(cacheKey: string) returns (entry: Option<Entry>)
      ensures entry == Lookup(entries, cacheKey)
    {
      if cacheKey !in entries {
        return None;
      }
      if IsBlank(entries[cacheKey].translated) {
        return None;
      }
      return Some(entries[cacheKey]);
    }

    method Put(entry: Entry)
      modifies this
      ensures entries == Stored(old(entries), entry)
      ensures old(Consistent(entries)) ==> Consistent(entries)
    {
      if entry.cacheKey == "" {
        return;
      }
      entries := entries[entry.cacheKey := entry];
    }

    /** The keys, in whatever order the map yields them, sorted. */
    method SortedKeys() returns (keys: seq<string>)
      ensures keys == InOrder(entries.Keys)
    {
      keys := [];
      var todo := entries.Keys;
      while todo != {}
        invariant todo <= entries.Keys
        invariant forall k :: k in keys <==> k in entries.Keys && k !in todo
        decreases todo
      {
        var key :| key in todo;
        todo := todo - {key};
        keys := keys + [key];
      }
      SortUniqueIsSorted(keys);
      keys := SortUnique(keys);
      SortedUnique(keys, InOrder(entries.Keys));
    }

    method WriteLines(codec: Codec, keys: seq<string>) returns (file: string)
      requires forall k :: k in keys ==> k in entries
      ensures file == Lines(codec, entries, keys)
    {
      file := "";
      for i := 0 to |keys|
        invariant forall k :: k in keys[i..] ==> k in entries
        invariant file + Lines(codec, entries, keys[i..]) == Lines(codec, entries, keys)
      {
        assert keys[i..][0] == keys[i] && keys[i..][1..] == keys[i + 1..];
        var payload := codec.encode(entries[keys[i]]);
        ghost var rest := Lines(codec, entries, keys[i + 1..]);
        assert file + payload + "\n" + rest == file + (payload + "\n" + rest);
        file := file + payload + "\n";
      }
    }

    /** The entries in the order of their keys, one line each. */
    method Save(codec: Codec) returns (file: string)
      ensures file == FileOf(codec, entries)
    {
      var keys := SortedKeys();
      file := WriteLines(codec, keys);
    }
  }

  // ---------------------------------------------------------------- what is loaded

  /** The line holds this entry, with this key and a translation. */
  ghost predicate Gives(codec: Codec, line: string, key: string, e: Entry) {
    && !IsBlank(line) && codec.decode(TrimSpace(line)) == Some(e)
    && e.cacheKey == key && key != "" && !IsBlank(e.translated)
  }

  ghost predicate GivesNone(codec: Codec, lines: seq<string>, from: nat, key: string) {
    forall i, e :: from <= i < |lines| ==> !Gives(codec, lines[i], key, e)
  }

  /** Line i is the last that gives an entry for the key, and gives this one. */
  ghost predicate LastGiven(codec: Codec, lines: seq<string>, i: nat, key: string, e: Entry) {
    i < |lines| && Gives(codec, lines[i], key, e) && GivesNone(codec, lines, i + 1, key)
  }

  ghost predicate IsGiven(codec: Codec, lines: seq<string>, key: string, e: Entry) {
    exists i: nat :: LastGiven(codec, lines, i, key, e)
  }

  /** The line is neither blank nor an entry. */
  predicate IsBroken(codec: Codec, line: string) {
    !IsBlank(line) && codec.decode(TrimSpace(line)).None?
  }

  lemma {:induction false} LoadFailsExactly(codec: Codec, lines: seq<string>, entries: Entries)
    ensures LoadLines(codec, lines, entries).None? <==> exists i :: 0 <= i < |lines| && IsBroken(codec, lines[i])
    decreases |lines|
  {
    if lines != [] {
      TrimSpaceBlank(lines[0]);
      var rest := lines[1..];
      assert forall i :: 0 <= i < |rest| ==> rest[i] == lines[i + 1];
      assert lines == [lines[0]] + rest;
      hide IsBlank, TrimSpace;
      if TrimSpace(lines[0]) == "" {
        LoadFailsExactly(codec, rest, entries);
      } else {
        var e := codec.decode(TrimSpace(lines[0]));
        if e.Some? {
          LoadFailsExactly(codec, rest, Loaded(entries, e.value));
        }
      }
    }
  }

  /** What the first line adds. */
  function AfterLine(codec: Codec, line: string, entries: Entries): Option<Entries> {
    if TrimSpace(line) == "" then Some(entries)
    else
      var e :- codec.decode(TrimSpace(line));
      Some(Loaded(entries, e))
  }

  lemma AfterLineHolds(codec: Codec, line: string, entries: Entries, key: string)
    requires AfterLine(codec, line, entries).Some?
    ensures var m := AfterLine(codec, line, entries).value;
            if exists e :: Gives(codec, line, key, e) then key in m && Gives(codec, line, key, m[key])
            else (key in m <==> key in entries) && (key in m ==> m[key] == entries[key])
  {
    TrimSpaceBlank(line);
    hide IsBlank, TrimSpace;
    if e :| Gives(codec, line, key, e) {
      assert AfterLine(codec, line, entries).value[key] == e;
    } else if codec.decode(TrimSpace(line)).Some? {
      assert !Gives(codec, line, key, codec.decode(TrimSpace(line)).value);
    }
  }

  lemma GivesNoneShift(codec: Codec, lines: seq<string>, from: nat, key: string)
    requires lines != []
    ensures GivesNone(codec, lines, from + 1, key) <==> GivesNone(codec, lines[1..], from, key)
  {
    hide Gives;
    assert forall i :: 1 <= i < |lines| ==> lines[i] == lines[1..][i - 1];
  }

  lemma GivesNoneStep(codec: Codec, lines: seq<string>, key: string)
    requires lines != []
    ensures GivesNone(codec, lines, 0, key) <==>
            GivesNone(codec, lines, 1, key) && forall e :: !Gives(codec, lines[0], key, e)
  {
    hide Gives;
  }

  lemma IsGivenCons(codec: Codec, lines: seq<string>, key: string, e: Entry)
    requires lines != [] && IsGiven(codec, lines[1..], key, e)
    ensures IsGiven(codec, lines, key, e)
  {
    hide Gives, GivesNone;
    var i: nat :| LastGiven(codec, lines[1..], i, key, e);
    GivesNoneShift(codec, lines, i + 1, key);
    assert LastGiven(codec, lines, i + 1, key, e);
  }

  lemma FirstIsGiven(codec: Codec, lines: seq<string>, key: string, e: Entry)
    requires lines != [] && Gives(codec, lines[0], key, e) && GivesNone(codec, lines, 1, key)
    ensures IsGiven(codec, lines, key, e)
  {
    hide Gives, GivesNone;
    assert LastGiven(codec, lines, 0, key, e);
  }

  lemma {:induction false} LoadLinesHolds(codec: Codec, lines: seq<string>, entries: Entries, key: string)
    requires LoadLines(codec, lines, entries).Some?
    ensures var m := LoadLines(codec, lines, entries).value;
            if GivesNone(codec, lines, 0, key)
            then (key in m <==> key in entries) && (key in m ==> m[key] == entries[key])
            else key in m && IsGiven(codec, lines, key, m[key])
    decreases |lines|
  {
    if lines != [] {
      hide Gives, GivesNone, IsGiven, Loaded, TrimSpace;
      assert AfterLine(codec, lines[0], entries).Some?;
      var next := AfterLine(codec, lines[0], entries).value;
      assert LoadLines(codec, lines, entries) == LoadLines(codec, lines[1..], next);
      hide LoadLines, AfterLine;
      LoadLinesHolds(codec, lines[1..], next, key);
      AfterLineHolds(codec, lines[0], entries, key);
      GivesNoneShift(codec, lines, 0, key);
      GivesNoneStep(codec, lines, key);
      var m := LoadLines(codec, lines, entries).value;
      if !GivesNone(codec, lines, 1, key) {
        IsGivenCons(codec, lines, key, m[key]);
      } else if !GivesNone(codec, lines, 0, key) {
        FirstIsGiven(codec, lines, key, m[key]);
      }
    }
  }

  lemma GivenOnce(codec: Codec, lines: seq<string>, key: string, e: Entry, e': Entry)
    requires IsGiven(codec, lines, key, e) && IsGiven(codec, lines, key, e')
    ensures e == e' && !GivesNone(codec, lines, 0, key)
  {
    var i: nat :| LastGiven(codec, lines, i, key, e);
    var j: nat :| LastGiven(codec, lines, j, key, e');
    hide IsBlank, TrimSpace;
    assert i == j;
  }

  /** Without a file there is an empty memory. A file fails to load exactly when some line is
      broken. Otherwise each key has the entry of the last line that gives one for it, and
      no other key has one. */
  lemma LoadsExactly(codec: Codec, file: Option<string>, key: string, e: Entry)
    ensures file.None? ==> LoadFile(codec, file) == Some(map[])
    ensures file.Some? ==> (LoadFile(codec, file).None? <==>
                            exists i :: 0 <= i < |Split(file.value)| && IsBroken(codec, Split(file.value)[i]))
    ensures file.Some? && LoadFile(codec, file).Some? ==>
              (key in LoadFile(codec, file).value && LoadFile(codec, file).value[key] == e
               <==> IsGiven(codec, Split(file.value), key, e))
  {
    if file.Some? {
      hide Split, LoadLines, IsGiven, GivesNone, IsBroken;
      var lines := Split(file.value);
      LoadFailsExactly(codec, lines, map[]);
      if LoadFile(codec, file).Some? {
        var m := LoadFile(codec, file).value;
        LoadLinesHolds(codec, lines, map[], key);
        if IsGiven(codec, lines, key, e) {
          GivenOnce(codec, lines, key, e, e);
          GivenOnce(codec, lines, key, e, m[key]);
        }
      }
    }
  }

  // ---------------------------------------------------------------- saving and loading again

  function KeepNonBlank(entries: Entries): Entries {
    map k | k in entries && !IsBlank(entries[k].translated) :: entries[k]
  }

  /** The entries with the given keys taken in one after the other. */
  function LoadAll(entries: Entries, keys: seq<string>, sofar: Entries): Entries
    requires forall k :: k in keys ==> k in entries
    decreases |keys|
  {
    if keys == [] then sofar else LoadAll(entries, keys[1..], Loaded(sofar, entries[keys[0]]))
  }

  lemma {:induction false} LoadOfLines(codec: Codec, entries: Entries, keys: seq<string>, sofar: Entries)
    requires codec.Lawful() && forall k :: k in keys ==> k in entries
    ensures LoadLines(codec, Split(Lines(codec, entries, keys)), sofar) == Some(LoadAll(entries, keys, sofar))
    decreases |keys|
  {
    if keys == [] {
      assert Split("") == [""];
      assert LoadLines(codec, [""][1..], sofar) == Some(sofar);
    } else {
      var e, rest := entries[keys[0]], Split(Lines(codec, entries, keys[1..]));
      var line := codec.encode(e);
      assert IsTrimmedLine(line) && TrimSpace(line) == line && codec.decode(line) == Some(e);
      SplitCons(line, Lines(codec, entries, keys[1..]));
      hide Split, TrimSpace, IsBlank, Loaded;
      assert ([line] + rest)[0] == line && ([line] + rest)[1..] == rest;
      LoadOfLines(codec, entries, keys[1..], Loaded(sofar, e));
    }
  }

  lemma {:induction false} LoadAllMembers(entries: Entries, keys: seq<string>, sofar: Entries, k: string)
    requires Consistent(entries) && forall k :: k in keys ==> k in entries
    ensures var r := LoadAll(entries, keys, sofar);
            if k in keys && !IsBlank(entries[k].translated) then k in r && r[k] == entries[k]
            else (k in r <==> k in sofar) && (k in r ==> r[k] == sofar[k])
    decreases |keys|
  {
    if keys != [] {
      assert keys[0] in keys && entries[keys[0]].cacheKey == keys[0] != "";
      LoadAllMembers(entries, keys[1..], Loaded(sofar, entries[keys[0]]), k);
      assert keys == [keys[0]] + keys[1..];
    }
  }

  lemma LoadAllKeepsNonBlank(entries: Entries, keys: seq<string>)
    requires Consistent(entries) && forall k :: k in keys <==> k in entries
    ensures LoadAll(entries, keys, map[]) == KeepNonBlank(entries)
  {
    hide LoadAll, IsBlank;
    var loaded := LoadAll(entries, keys, map[]);
    forall k
      ensures k in loaded <==> k in KeepNonBlank(entries)
      ensures k in loaded ==> loaded[k] == KeepNonBlank(entries)[k]
    {
      LoadAllMembers(entries, keys, map[], k);
    }
    assert loaded == KeepNonBlank(entries);
  }

  /** Loading the file that was saved gives the memory without its blank translations, and
      that changes no lookup. */
  lemma LoadAfterSave(codec: Codec, entries: Entries, file: string)
    requires codec.Lawful() && Consistent(entries) && file == FileOf(codec, entries)
    ensures LoadFile(codec, Some(file)) == Some(KeepNonBlank(entries))
    ensures Consistent(KeepNonBlank(entries))
    ensures forall key :: Lookup(KeepNonBlank(entries), key) == Lookup(entries, key)
  {
    hide LoadLines, Lines, LoadAll, InOrder, IsBlank;
    var keys := InOrder(entries.Keys);
    LoadOfLines(codec, entries, keys, map[]);
    LoadAllKeepsNonBlank(entries, keys);
  }
}
