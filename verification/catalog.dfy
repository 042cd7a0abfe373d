/** `findMovieById`, in its two copies: the movie records live in the
    `.json` files of a data directory, each expected to hold an array. */
module Catalog {
  import opened Wrappers
  import opened Text

  /** A movie record: `String(tmdb_id)` and the fields the handlers read. */
  datatype Movie = Movie(tmdbId: string, url: Option<string>, title: Option<string>)

  /** What reading and parsing one file gives: a failure (read or parse
      throws), a JSON value that is not an array, or an array of records. */
  datatype Document = Unreadable | NotArray | Movies(items: seq<Movie>)

  /** A directory entry: its file name and contents. */
  datatype Entry = Entry(name: string, doc: Document)

  /** `entries.filter(file => file.endsWith('.json'))` */
  function JsonEntries(entries: seq<Entry>): (r: seq<Entry>)
    ensures forall i | 0 <= i < |r| :: EndsWith(r[i].name, ".json")
    ensures forall e | e in entries :: EndsWith(e.name, ".json") <==> e in r
    ensures |r| <= |entries|
    decreases |entries|
  {
    if |entries| == 0 then []
    else
      var rest := JsonEntries(entries[1..]);
      assert forall e | e in entries[1..] :: e in entries;
      if EndsWith(entries[0].name, ".json") then [entries[0]] + rest else rest
  }

  /** The filter keeps the listing's order: filtering a listing piece by
      piece and joining the pieces is filtering the whole. */
  lemma {:induction false} JsonEntriesAppend(a: seq<Entry>, b: seq<Entry>)
    ensures JsonEntries(a + b) == JsonEntries(a) + JsonEntries(b)
    decreases |a|
  {
    if |a| > 0 {
      assert (a + b)[1..] == a[1..] + b;
      JsonEntriesAppend(a[1..], b);
    } else {
      assert a + b == b;
    }
  }

  /** A single entry is kept exactly when its name ends in `.json`. */
  lemma JsonEntriesSingle(e: Entry)
    ensures JsonEntries([e]) == if EndsWith(e.name, ".json") then [e] else []
  {
    assert [e][1..] == [];
  }

  /** `movies.find(m => String(m.tmdb_id) === id)`, as an index: the first
      record with that id, or the length when there is none. */
  function FindIndex(items: seq<Movie>, id: string): (k: nat)
    ensures k <= |items|
    ensures forall j | 0 <= j < k :: items[j].tmdbId != id
    ensures k < |items| ==> items[k].tmdbId == id
    decreases |items|
  {
    if |items| == 0 then 0
    else if items[0].tmdbId == id then 0
    else
      var k := FindIndex(items[1..], id);
      assert forall j | 1 <= j < k + 1 :: items[j] == items[1..][j - 1];
      k + 1
  }

  /** The file holds an array with a record for `id`. */
  predicate Holds(e: Entry, id: string) {
    e.doc.Movies? && FindIndex(e.doc.items, id) < |e.doc.items|
  }

  /** The reference search: the first record with the id in the first
      file, from `i` on, that holds one. */
  function FirstMatch(files: seq<Entry>, id: string, i: nat): Option<Movie>
    requires i <= |files|
    decreases |files| - i
  {
    if i == |files| then None
    else if Holds(files[i], id) then Some(files[i].doc.items[FindIndex(files[i].doc.items, id)])
    else FirstMatch(files, id, i + 1)
  }

  /** What the search finds: nothing exactly when no file holds the id;
      otherwise a record with that id, from the first file holding one. */
  lemma {:induction false} FirstMatchSpec(files: seq<Entry>, id: string, i: nat)
    requires i <= |files|
    ensures FirstMatch(files, id, i).None? <==> forall j | i <= j < |files| :: !Holds(files[j], id)
    ensures FirstMatch(files, id, i).Some? ==> FirstMatch(files, id, i).value.tmdbId == id
    ensures FirstMatch(files, id, i).Some? ==> exists j | i <= j < |files| ::
      (Holds(files[j], id) && (forall j' | i <= j' < j :: !Holds(files[j'], id))
       && FirstMatch(files, id, i).value in files[j].doc.items)
    decreases |files| - i
  {
    if i < |files| {
      if Holds(files[i], id) {
        var items := files[i].doc.items;
        assert items[FindIndex(items, id)] in items;
      } else {
        FirstMatchSpec(files, id, i + 1);
        if FirstMatch(files, id, i).Some? {
          var j :| i + 1 <= j < |files| && Holds(files[j], id) && (forall j' | i + 1 <= j' < j :: !Holds(files[j'], id))
                   && FirstMatch(files, id, i + 1).value in files[j].doc.items;
          assert forall j' | i <= j' < j :: !Holds(files[j'], id);
        }
      }
    }
  }

  /** `findMovieById(id)` over the directory listing. */
  method FindMovieById(entries: seq<Entry>, id: string) returns (r: Option<Movie>)
    ensures r == FirstMatch(JsonEntries(entries), id, 0)
  {
    var files := JsonEntries(entries);
    for i := 0 to |files|
      invariant FirstMatch(files, id, i) == FirstMatch(files, id, 0)
    {
      var doc := files[i].doc;
      if !doc.Movies? {
        continue;
      }
      var k := FindIndex(doc.items, id);
      if k < |doc.items| {
        return Some(doc.items[k]);
      }
    }
    return None;
  }
}
