/**
 * The listing built by `coursHandler` in main.ts: the rows of the
 * `cours_infos` table are folded into one object keyed by row id.
 */
module CoursIndex {
  import opened Wrappers

  /** A fetched `cours_infos` row, reduced to the columns the handler reads. */
  datatype CoursInfoRow = CoursInfoRow(id: int, year: int, cours: int)

  /** The value stored under a row's id in the listing. */
  datatype CoursEntry = CoursEntry(id: int, year: int, cours: int)

  /** What the handler sends back: the listing, or the fetch-failure body. */
  datatype CoursResponse = Listing(index: map<int, CoursEntry>) | ErrorFetchingData

  function EntryOf(row: CoursInfoRow): CoursEntry {
    CoursEntry(row.id, row.year, row.cours)
  }

  function Ids(rows: seq<CoursInfoRow>): set<int> {
    set row | row in rows :: row.id
  }

  /**
   * The reduce as a left fold: each row, in order, writes its entry under
   * its id, overwriting what an earlier row with that id wrote. Every entry
   * sits under its own id.
   */
  function Index(rows: seq<CoursInfoRow>): (index: map<int, CoursEntry>)
    ensures forall id :: id in index ==> index[id].id == id
  {
    if rows == [] then map[]
    else
      var row := rows[|rows| - 1];
      Index(rows[..|rows| - 1])[row.id := EntryOf(row)]
  }

  /** The listing's key set is exactly the set of ids in the rows. */
  lemma {:induction false} IndexKeys(rows: seq<CoursInfoRow>)
    ensures Index(rows).Keys == Ids(rows)
  {
    if rows != [] {
      var init, row := rows[..|rows| - 1], rows[|rows| - 1];
      IndexKeys(init);
      assert rows == init + [row];
      assert Ids(rows) == Ids(init) + {row.id};
    }
  }

  /** The entry under an id comes from the last row carrying that id. */
  lemma {:induction false} IndexLastWins(rows: seq<CoursInfoRow>, j: int)
    requires 0 <= j < |rows|
    requires forall k :: j < k < |rows| ==> rows[k].id != rows[j].id
    ensures rows[j].id in Index(rows)
    ensures Index(rows)[rows[j].id] == EntryOf(rows[j])
  {
    if j < |rows| - 1 {
      var init := rows[..|rows| - 1];
      assert forall k :: j < k < |init| ==> init[k] == rows[k];
      IndexLastWins(init, j);
    }
  }

  /**
   * The reduce as the source runs it: an accumulator map updated row
   * by row.
   */
  method BuildIndex(rows: seq<CoursInfoRow>) returns (acc: map<int, CoursEntry>)
    ensures acc == Index(rows)
  {
    acc := map[];
    for i := 0 to |rows|
      invariant acc == Index(rows[..i])
    {
      var curr := rows[i];
      acc := acc[curr.id := EntryOf(curr)];
      assert rows[..i + 1][..i] == rows[..i];
    }
    assert rows[..|rows|] == rows;
  }

  /**
   * `coursHandler` after its query: a present row array (even an empty
   * one, which is truthy) becomes the listing; a missing one becomes the
   * error body.
   */
  method CoursHandler(data: Option<seq<CoursInfoRow>>) returns (response: CoursResponse)
    ensures data.None? <==> response == ErrorFetchingData
    ensures data.Some? ==> response.Listing? && response.index.Keys == Ids(data.value)
    ensures data.Some? ==> response == Listing(Index(data.value))
    ensures data == Some([]) ==> response == Listing(map[])
  {
    if data.Some? {
      var index := BuildIndex(data.value);
      IndexKeys(data.value);
      response := Listing(index);
    } else {
      response := ErrorFetchingData;
    }
  }
}
