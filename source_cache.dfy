/** The source-line cache: file name → lines, filled the first time a name is asked for. */
module SourceLines {
  import opened Wrappers
  import opened PyStr

  /** The only exception `get_source` lets escape: a negative list index past the front. */
  datatype LookupError = IndexError

  /**
   * The lookup as written: `lines[line - 1]` when `line < len(lines)`, "" otherwise.
   * Below 1, `line - 1` is a negative Python index counted from the end.
   */
  function LineAt(lines: seq<string>, line: int): (r: Result<string, LookupError>)
    ensures 1 <= line < |lines| ==> r == Ok(lines[line - 1])
    ensures |lines| <= line ==> r == Ok("")
    ensures line < 1 && line < |lines| ==> (r.Ok? <==> 1 - |lines| <= line)
    ensures line < |lines| && r.Ok? ==> r.value in lines
  {
    if line < |lines| then
      match PyIndex(lines, line - 1)
      case None => Err(IndexError)
      case Some(s) => Ok(s)
    else Ok("")
  }

  /** Line 0 of a non-empty file is its last line, through Python's negative indexing. */
  lemma ZeroIsLast(lines: seq<string>)
    requires |lines| >= 1
    ensures LineAt(lines, 0) == Ok(lines[|lines| - 1])
  {
  }

  /** A file's last line is never returned: asking for line `len(lines)` gives "". */
  lemma LastLineLost(lines: seq<string>)
    requires |lines| >= 1
    ensures LineAt(lines, |lines|) == Ok("")
  {
  }

  /** The smallest witness: a two-line file whose second line cannot be fetched. */
  lemma LastLineLostExample()
    ensures LineAt(["int x;\n", "return x;\n"], 2) == Ok("")
    ensures LineFixed(["int x;\n", "return x;\n"], 2) == "return x;\n"
  {
  }

  /** The evidently intended lookup: 1-based line numbers 1..len(lines), "" for any other. */
  function LineFixed(lines: seq<string>, line: int): (r: string)
    ensures r != "" ==> r in lines
  {
    if 1 <= line <= |lines| then lines[line - 1] else ""
  }

  /** Every line of the file is reachable under its 1-based number, and nothing else is returned. */
  lemma FixedNumbering(lines: seq<string>)
    ensures forall k :: 0 <= k < |lines| ==> LineFixed(lines, k + 1) == lines[k]
    ensures forall line :: (line < 1 || |lines| < line) ==> LineFixed(lines, line) == ""
  {
  }

  /** The corrected and the as-written lookups agree on every positive line but the last. */
  lemma FixedAgrees(lines: seq<string>, line: int)
    requires 1 <= line && line != |lines|
    ensures LineAt(lines, line) == Ok(LineFixed(lines, line))
  {
  }

  class SourceCache {
    /** The files this process can open, with their lines; a name outside the domain fails to open. */
    const files: map<string, seq<string>>
    /** The `source_cache` dict: file name → cached lines. */
    var cache: map<string, seq<string>>
    /** The names opened so far, in order. */
    ghost var readLog: seq<string>

    /** What a first lookup caches for `name`: its lines, or [] when opening it fails. */
    function Contents(name: string): (r: seq<string>)
      ensures name !in files ==> r == []
      ensures name in files ==> r == files[name]
    {
      if name in files then files[name] else []
    }

    /** Each cached entry holds what the file held when opened, and each name was opened once. */
    ghost predicate Valid()
      reads this
    {
      (forall name :: name in cache ==> cache[name] == Contents(name)) &&
      (forall name :: name in cache <==> name in readLog) &&
      (forall i, j :: 0 <= i < j < |readLog| ==> readLog[i] != readLog[j])
    }

    constructor(files: map<string, seq<string>>)
      ensures this.files == files
      ensures cache == map[] && readLog == []
      ensures Valid()
    {
      this.files := files;
      cache := map[];
      readLog := [];
    }

    /**
     * `get_source(filename, line)`: caches the file on a miss (opening it once), then looks
     * the line up in the cached entry. A hit opens nothing and changes no entry.
     */
    method GetSource(filename: string, line: int) returns (r: Result<string, LookupError>)
      requires Valid()
      modifies this
      ensures Valid()
      ensures cache == old(cache)[filename := Contents(filename)]
      ensures filename in old(cache) ==> cache == old(cache) && readLog == old(readLog)
      ensures filename !in old(cache) ==> readLog == old(readLog) + [filename]
      ensures r == LineAt(Contents(filename), line)
    {
      if filename !in cache {
        if filename in files {
          cache := cache[filename := files[filename]];
        } else {
          cache := cache[filename := []];
        }
        readLog := readLog + [filename];
      }
      var lines := cache[filename];
      if line < |lines| {
        var entry := PyIndex(lines, line - 1);
        if entry.None? {
          return Err(IndexError);
        }
        return Ok(entry.value);
      } else {
        return Ok("");
      }
    }
  }
}
