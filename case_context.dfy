/**
 * app/context/CaseContext.tsx: the provider's local list of cases and the
 * updates it applies once a database request has answered. The database
 * answer of each request is a parameter (`Response`).
 */
module CaseStore {
  import opened Common

  /** One row of the `cases` table. */
  datatype Case = Case(id: int, createdAt: string, slug: string, title: Option<string>,
                       client: string, description: string, category: Option<string>,
                       year: Option<string>, images: Option<seq<string>>, caseOrder: Option<int>)

  /** The fields a new case is inserted with (`Omit<Case, "id" | "created_at">`, as the form fills it). */
  datatype CaseDraft = CaseDraft(title: string, client: string, description: string,
                                 category: Option<string>, year: Option<string>,
                                 images: Option<seq<string>>)

  /** What an awaited database call gives: its data, or the value its `throw` raised. */
  datatype Response<T> = Ok(data: T) | Failed(thrown: Thrown)

  /** The `{ case_order: i }` update sent for the case with this id. */
  datatype OrderUpdate = OrderUpdate(id: int, order: int)

  /** What `useCaseContext` gives: the context, or the error it throws. */
  datatype Lookup<T> = Found(value: T) | Threw(message: string)

  const OutsideProvider := "useCaseContext must be used inside a <CaseProvider>"
  const UnexpectedError := "Unexpected error"

  /** `c.images ?? []`: a case's media URLs, none for `null`. */
  function ImagesOf(c: Case): (urls: seq<string>)
    ensures c.images.Some? ==> urls == c.images.value
    ensures c.images.None? ==> urls == []
  {
    if c.images.Some? then c.images.value else []
  }

  /** No two cases share an id. */
  predicate DistinctIds(cases: seq<Case>) {
    forall j, k :: 0 <= j < k < |cases| ==> cases[j].id != cases[k].id
  }

  /** The ids of a list of cases, in order. */
  function Ids(cases: seq<Case>): (r: seq<int>)
    ensures |r| == |cases| && forall k :: 0 <= k < |cases| ==> r[k] == cases[k].id
  {
    seq(|cases|, k requires 0 <= k < |cases| => cases[k].id)
  }

  /** How many cases have an id in `ids`. */
  function CountIn(cases: seq<Case>, ids: set<int>): (n: nat)
    ensures n <= |cases|
  {
    if cases == [] then 0
    else (if cases[0].id in ids then 1 else 0) + CountIn(cases[1..], ids)
  }

  /**
   * `cases.filter(c => !ids.has(c.id))`: the cases whose id is not in `ids`,
   * in their order. Used by `deleteCase` with one id and by the list screen's
   * merge with the server's ids.
   */
  function Without(cases: seq<Case>, ids: set<int>): (r: seq<Case>)
    ensures forall c :: c in r <==> c in cases && c.id !in ids
    ensures |r| == |cases| - CountIn(cases, ids)
    ensures (forall k :: 0 <= k < |cases| ==> cases[k].id !in ids) ==> r == cases
  {
    if cases == [] then []
    else
      var rest := Without(cases[1..], ids);
      assert cases == [cases[0]] + cases[1..];
      if cases[0].id in ids then rest else [cases[0]] + rest
  }

  /** The filter keeps the order: filtering a concatenation filters each part. */
  lemma {:induction false} WithoutConcat(a: seq<Case>, b: seq<Case>, ids: set<int>)
    ensures Without(a + b, ids) == Without(a, ids) + Without(b, ids)
  {
    if a != [] {
      assert (a + b)[1..] == a[1..] + b;
      WithoutConcat(a[1..], b, ids);
    } else {
      assert a + b == b;
    }
  }

  /** Filtering keeps ids distinct. */
  lemma {:induction false} WithoutKeepsDistinct(cases: seq<Case>, ids: set<int>)
    requires DistinctIds(cases)
    ensures DistinctIds(Without(cases, ids))
  {
    if cases != [] {
      WithoutKeepsDistinct(cases[1..], ids);
      var rest := Without(cases[1..], ids);
      if cases[0].id in ids {
        assert Without(cases, ids) == rest;
      } else {
        TailIdsDiffer(cases);
        assert forall c :: c in rest ==> c in cases[1..];
        ConsDistinct(cases[0], rest);
        assert Without(cases, ids) == [cases[0]] + rest;
      }
    }
  }

  /** A case in front of a list with distinct ids, none of them its own, keeps the ids distinct. */
  lemma ConsDistinct(x: Case, rest: seq<Case>)
    requires DistinctIds(rest) && forall c :: c in rest ==> c.id != x.id
    ensures DistinctIds([x] + rest)
  {
    var r := [x] + rest;
    forall j, k | 0 <= j < k < |r| ensures r[j].id != r[k].id {
      assert r[k] == rest[k - 1] && rest[k - 1] in rest;
      if j > 0 {
        assert r[j] == rest[j - 1];
      }
    }
  }

  /** In a list with distinct ids, no later case shares the first case's id. */
  lemma TailIdsDiffer(cases: seq<Case>)
    requires cases != [] && DistinctIds(cases)
    ensures forall c :: c in cases[1..] ==> c.id != cases[0].id
  {
    forall c | c in cases[1..] ensures c.id != cases[0].id {
      var m :| 0 <= m < |cases[1..]| && cases[1..][m] == c;
      assert cases[m + 1] == c;
    }
  }

  /** Filtering twice with the same ids is filtering once. */
  lemma WithoutIdempotent(cases: seq<Case>, ids: set<int>)
    ensures Without(Without(cases, ids), ids) == Without(cases, ids)
  {
    var r := Without(cases, ids);
    forall k | 0 <= k < |r| ensures r[k].id !in ids {
      assert r[k] in r;
    }
  }

  /**
   * The `updateCase` reducer, corrected: every case with the id becomes the
   * first returned row; when no row came back the list is left as it was.
   */
  function ReplaceById(cases: seq<Case>, id: int, rows: seq<Case>): (r: seq<Case>)
    ensures |r| == |cases|
    ensures rows == [] ==> r == cases
    ensures rows != [] ==> forall k :: 0 <= k < |cases| ==>
              r[k] == (if cases[k].id == id then rows[0] else cases[k])
  {
    if rows == [] then cases
    else seq(|cases|, k requires 0 <= k < |cases| => if cases[k].id == id then rows[0] else cases[k])
  }

  /** When the returned row keeps the id, the ids and their order do not change, and a second replace is a no-op. */
  lemma ReplaceKeepsIds(cases: seq<Case>, id: int, rows: seq<Case>)
    requires rows != [] ==> rows[0].id == id
    ensures Ids(ReplaceById(cases, id, rows)) == Ids(cases)
    ensures ReplaceById(ReplaceById(cases, id, rows), id, rows) == ReplaceById(cases, id, rows)
  {
  }

  /**
   * The `updateCase` reducer as written: `data?.[0]` is `undefined` when no
   * row came back, and that `undefined` is what replaces the matching cases.
   */
  function ReplaceByIdAsWritten(cases: seq<Case>, id: int, rows: seq<Case>): (r: seq<Option<Case>>)
    ensures |r| == |cases|
    ensures forall k :: 0 <= k < |cases| ==>
              r[k] == (if cases[k].id != id then Some(cases[k]) else if rows == [] then None else Some(rows[0]))
  {
    seq(|cases|, k requires 0 <= k < |cases| =>
      if cases[k].id != id then Some(cases[k]) else if rows == [] then None else Some(rows[0]))
  }

  /**
   * A successful update that returns no row (the filter matched nothing the
   * caller may see) puts `undefined` into the list at every matching case;
   * with a row, the written reducer and the corrected one agree.
   */
  lemma UpdateWithoutRowsStoresUndefined(cases: seq<Case>, id: int, rows: seq<Case>, k: nat)
    requires k < |cases| && cases[k].id == id
    ensures rows == [] ==> ReplaceByIdAsWritten(cases, id, rows)[k] == None
    ensures rows != [] ==> forall j :: 0 <= j < |cases| ==>
              ReplaceByIdAsWritten(cases, id, rows)[j] == Some(ReplaceById(cases, id, rows)[j])
  {
  }

  /** The updates `updateCaseOrder` sends: the case at position i gets `case_order = i`. */
  function OrderUpdates(newOrder: seq<Case>): (u: seq<OrderUpdate>)
    ensures |u| == |newOrder|
    ensures forall i :: 0 <= i < |u| ==> u[i].id == newOrder[i].id && u[i].order == i
  {
    seq(|newOrder|, i requires 0 <= i < |newOrder| => OrderUpdate(newOrder[i].id, i))
  }

  /** The row `c` after the database applies `updates` in turn. */
  function ApplyOrders(c: Case, updates: seq<OrderUpdate>): Case
    decreases |updates|
  {
    if updates == [] then c
    else ApplyOrders(if updates[0].id == c.id then c.(caseOrder := Some(updates[0].order)) else c, updates[1..])
  }

  /** An update list that names `c`'s id only at position `j` leaves `c` with that update's order. */
  lemma {:induction false} ApplyOneOrder(c: Case, updates: seq<OrderUpdate>, j: nat)
    requires j < |updates| && updates[j].id == c.id
    requires forall i :: 0 <= i < |updates| && i != j ==> updates[i].id != c.id
    ensures ApplyOrders(c, updates) == c.(caseOrder := Some(updates[j].order))
    decreases |updates|
  {
    if j == 0 {
      ApplyNoOrder(c.(caseOrder := Some(updates[0].order)), updates[1..]);
    } else {
      ApplyOneOrder(c, updates[1..], j - 1);
    }
  }

  /** Updates that never name `c`'s id leave it alone. */
  lemma {:induction false} ApplyNoOrder(c: Case, updates: seq<OrderUpdate>)
    requires forall i :: 0 <= i < |updates| ==> updates[i].id != c.id
    ensures ApplyOrders(c, updates) == c
    decreases |updates|
  {
    if updates != [] {
      ApplyNoOrder(c, updates[1..]);
    }
  }

  /**
   * With distinct ids, once the database has applied the updates the case at
   * position i has `case_order` i, so the fetch's ascending `case_order`
   * sort gives back `newOrder`'s order.
   */
  lemma ReorderRoundTrip(newOrder: seq<Case>, i: nat)
    requires DistinctIds(newOrder) && i < |newOrder|
    ensures ApplyOrders(newOrder[i], OrderUpdates(newOrder)).caseOrder == Some(i)
  {
    ApplyOneOrder(newOrder[i], OrderUpdates(newOrder), i);
  }

  /** `useCaseContext`: the context when inside a provider, else the error it throws. */
  function UseCaseContext<T>(context: Option<T>): (r: Lookup<T>)
    ensures r.Threw? <==> context.None?
    ensures r.Threw? ==> r.message == OutsideProvider
    ensures r.Found? ==> r.value == context.value
  {
    match context
    case None => Threw(OutsideProvider)
    case Some(v) => Found(v)
  }

  /** The provider's state. */
  class Provider {
    var cases: seq<Case>
    var slug: string
    var loading: bool
    var error: Option<string>

    constructor (initialSlug: Option<string>, initialCases: Option<seq<Case>>)
      ensures cases == (if initialCases.Some? then initialCases.value else [])
      ensures slug == (if initialSlug.Some? then initialSlug.value else "")
      ensures !loading && error == None
    {
      cases := if initialCases.Some? then initialCases.value else [];
      slug := if initialSlug.Some? then initialSlug.value else "";
      loading := false;
      error := None;
    }

    method SetSlug(s: string)
      modifies this
      ensures slug == s && cases == old(cases) && loading == old(loading) && error == old(error)
    {
      slug := s;
    }

    /**
     * The fetch effect: nothing for an empty slug; otherwise the rows
     * (none for a `null` answer) replace the list, or a failure records its
     * message and keeps the list; loading ends false either way.
     */
    method Fetch(response: Response<Option<seq<Case>>>)
      modifies this
      ensures slug == old(slug)
      ensures old(slug) == "" ==> cases == old(cases) && loading == old(loading) && error == old(error)
      ensures old(slug) != "" ==> !loading
      ensures old(slug) != "" && response.Ok? ==>
                cases == (if response.data.Some? then response.data.value else []) && error == old(error)
      ensures old(slug) != "" && response.Failed? ==>
                cases == old(cases) && error == Some(MessageOf(response.thrown, UnexpectedError))
    {
      if slug == "" {
        return;
      }
      loading := true;
      match response {
        case Ok(data) =>
          cases := if data.Some? then data.value else [];
        case Failed(e) =>
          error := Some(MessageOf(e, UnexpectedError));
      }
      loading := false;
    }

    /** `addCase`: the inserted rows go after the existing cases; a failure only records its message. */
    method AddCase(draft: CaseDraft, response: Response<seq<Case>>)
      modifies this
      ensures slug == old(slug) && loading == old(loading)
      ensures response.Ok? ==> cases == old(cases) + response.data && error == old(error)
      ensures response.Failed? ==>
                cases == old(cases) && error == Some(MessageOf(response.thrown, UnexpectedError))
    {
      match response
      case Ok(rows) =>
        cases := cases + rows;
      case Failed(e) =>
        error := Some(MessageOf(e, UnexpectedError));
    }

    /** `updateCase`: the matching cases become the first returned row; a failure changes nothing. */
    method UpdateCase(id: int, response: Response<seq<Case>>)
      modifies this
      ensures slug == old(slug) && loading == old(loading) && error == old(error)
      ensures response.Ok? ==> cases == ReplaceById(old(cases), id, response.data)
      ensures response.Failed? ==> cases == old(cases)
    {
      if response.Ok? {
        cases := ReplaceById(cases, id, response.data);
      }
    }

    /** `deleteCase`: the cases with the id leave the list; a failure changes nothing. */
    method DeleteCase(id: int, response: Response<()>)
      modifies this
      ensures slug == old(slug) && loading == old(loading) && error == old(error)
      ensures response.Ok? ==> cases == Without(old(cases), {id})
      ensures response.Failed? ==> cases == old(cases)
    {
      if response.Ok? {
        cases := Without(cases, {id});
      }
    }

    /** `updateCaseOrder`: the list becomes `newOrder` before any request, and the updates give each case its position. */
    method UpdateCaseOrder(newOrder: seq<Case>) returns (updates: seq<OrderUpdate>)
      modifies this
      ensures cases == newOrder && slug == old(slug) && loading == old(loading) && error == old(error)
      ensures updates == OrderUpdates(newOrder)
    {
      cases := newOrder;
      updates := [];
      for i := 0 to |newOrder|
        invariant updates == OrderUpdates(newOrder[..i])
      {
        updates := updates + [OrderUpdate(newOrder[i].id, i)];
      }
      assert newOrder[..|newOrder|] == newOrder;
    }
  }
}
