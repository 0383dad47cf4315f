/**
 * The handler of GET /api/config (server.js:76-108): read every (key, value)
 * row of the `app_config` table and build an object from them, a later row
 * overwriting an earlier one with the same key. Every failure degrades to an
 * empty config; the response always says `success: true`.
 */
module AppConfig {
  import opened AdminClient

  /** The JSON body `{ success, config }`. */
  datatype ConfigResponse = ConfigResponse(success: bool, config: map<string, string>)

  /** The rows assigned one after another into an empty object: at most one key per row. */
  function Fold(rows: seq<Row>): (config: map<string, string>)
    ensures |config| <= |rows|
  {
    if rows == [] then map[]
    else Fold(rows[..|rows| - 1])[rows[|rows| - 1].key := rows[|rows| - 1].value]
  }

  /** The config the handler answers with, given whether the client exists and what the query returns. */
  function ConfigFor(configured: bool, query: Query): (config: map<string, string>)
    ensures !configured || query.QueryError? ==> config == map[]
    ensures configured && query.Rows? ==> config == Fold(query.rows)
  {
    if configured && query.Rows? && |query.rows| > 0 then Fold(query.rows) else map[]
  }

  /** The keys of the config are exactly the keys of the rows. */
  lemma {:induction false} FoldKeys(rows: seq<Row>, k: string)
    ensures k in Fold(rows) <==> exists i :: 0 <= i < |rows| && rows[i].key == k
  {
    if rows != [] {
      var init := rows[..|rows| - 1];
      FoldKeys(init, k);
      if k in Fold(init) {
        var i :| 0 <= i < |init| && init[i].key == k;
        assert rows[i].key == k;
      }
      if exists i :: 0 <= i < |rows| && rows[i].key == k {
        var i :| 0 <= i < |rows| && rows[i].key == k;
        if i < |init| {
          assert init[i].key == k;
        }
      }
    }
  }

  /** Last write wins: a key maps to the value of the last row that has it. */
  lemma {:induction false} FoldLastWriteWins(rows: seq<Row>, i: nat)
    requires i < |rows|
    requires forall j :: i < j < |rows| ==> rows[j].key != rows[i].key
    ensures rows[i].key in Fold(rows) && Fold(rows)[rows[i].key] == rows[i].value
  {
    var init := rows[..|rows| - 1];
    if i < |rows| - 1 {
      forall j | i < j < |init| ensures init[j].key != init[i].key {
        assert init[j] == rows[j];
      }
      FoldLastWriteWins(init, i);
    }
  }

  /** The `forEach` of server.js:89-92: assign each row's value to its key, in order. */
  method BuildConfig(rows: seq<Row>) returns (config: map<string, string>)
    ensures config == Fold(rows)
  {
    config := map[];
    var i := 0;
    while i < |rows|
      invariant 0 <= i <= |rows|
      invariant config == Fold(rows[..i])
    {
      assert rows[..i + 1][..i] == rows[..i];
      config := config[rows[i].key := rows[i].value];
      i := i + 1;
    }
    assert rows[..i] == rows;
  }

  /**
   * The handler: query only through an existing client; an error, no rows or
   * no client all give the empty config, and success is always true.
   */
  method FetchConfig(client: Client) returns (response: ConfigResponse)
    modifies client
    ensures response == ConfigResponse(true, ConfigFor(client.configured, client.answers.configQuery))
    ensures client.calls == old(client.calls) + (if client.configured then [SelectConfig] else [])
  {
    if client.configured {
      var query := client.SelectConfig();
      if query.Rows? && |query.rows| > 0 {
        var config := BuildConfig(query.rows);
        return ConfigResponse(true, config);
      }
    }
    return ConfigResponse(true, map[]);
  }

  /** Two rows with the same key: the second one's value is kept. */
  lemma ExampleLastRowWins()
    ensures ConfigFor(true, Rows([Row("primary_color", "#fff"), Row("primary_color", "#000")]))
         == map["primary_color" := "#000"]
  {
  }
}
