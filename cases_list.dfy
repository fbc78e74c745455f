/**
 * app/protected/components/cases-list.tsx: the admin list, which shows the
 * server's cases followed by the cases added on the client that the server
 * list does not already hold.
 */
module CasesList {
  import opened Text
  import opened CaseStore
  import opened MediaUrl
  import opened CasesDisplay

  /** The ids of a list of cases, as a set. */
  function IdSet(cases: seq<Case>): set<int> {
    set k | 0 <= k < |cases| :: cases[k].id
  }

  /**
   * `[...serverCases, ...cases.filter(c => !serverCases.find(sc => sc.id === c.id))]`:
   * the server cases in their order, then each client case whose id no
   * server case has, in their order.
   */
  function Merge(server: seq<Case>, client: seq<Case>): (r: seq<Case>)
    ensures |r| == |server| + |client| - CountIn(client, IdSet(server))
    ensures r[..|server|] == server
    ensures forall c :: c in r[|server|..] <==> c in client && c.id !in IdSet(server)
  {
    var added := Without(client, IdSet(server));
    assert (server + added)[|server|..] == added;
    server + added
  }

  /** Merging keeps ids distinct when each side has distinct ids. */
  lemma MergeKeepsDistinct(server: seq<Case>, client: seq<Case>)
    requires DistinctIds(server) && DistinctIds(client)
    ensures DistinctIds(Merge(server, client))
  {
    var added := Without(client, IdSet(server));
    WithoutKeepsDistinct(client, IdSet(server));
    var r := Merge(server, client);
    assert r == server + added;
    forall j, k | 0 <= j < k < |r| ensures r[j].id != r[k].id {
      if k >= |server| && j < |server| {
        assert r[k] == added[k - |server|] && added[k - |server|] in added;
        assert r[j].id in IdSet(server);
      } else if j >= |server| {
        assert r[j] == added[j - |server|] && r[k] == added[k - |server|];
      }
    }
  }

  /** With no server cases the list is the client's; with no client cases it is the server's. */
  lemma MergeWithOneSideEmpty(server: seq<Case>, client: seq<Case>)
    ensures Merge([], client) == client
    ensures Merge(server, []) == server
  {
    assert Without(client, IdSet([])) == client;
  }

  /** The tiles of one case: keyed by the last path segment, video by the loose test, alt text counting from 0. */
  function ListTiles(c: Case): (tiles: seq<Tile>)
    ensures |tiles| == |ImagesOf(c)|
    ensures forall i :: 0 <= i < |tiles| ==>
              && tiles[i].url == ImagesOf(c)[i] && tiles[i].key == AfterLast(ImagesOf(c)[i], '/')
              && (tiles[i].video <==> IsVideoLoose(ImagesOf(c)[i]))
              && tiles[i].alt == "Case media " + Decimal(i)
  {
    var urls := ImagesOf(c);
    seq(|urls|, i requires 0 <= i < |urls| =>
      Tile(AfterLast(urls[i], '/'), urls[i], IsVideoLoose(urls[i]), "Case media " + Decimal(i)))
  }

  /** The list: "No cases found" when the merge is empty, else one card per merged case. */
  function ListView(server: seq<Case>, client: seq<Case>): (v: CasesView)
    ensures v.NoCasesFound? <==> server == [] && client == []
    ensures v.Cards? ==> |v.cards| == |Merge(server, client)|
    ensures v.Cards? ==> forall k :: 0 <= k < |v.cards| ==>
              v.cards[k] == Card(Merge(server, client)[k], ListTiles(Merge(server, client)[k]))
  {
    var all := Merge(server, client);
    if all == [] then NoCasesFound
    else Cards(seq(|all|, k requires 0 <= k < |all| => Card(all[k], ListTiles(all[k]))))
  }
}
