/**
 * app/protected/components/case-form.tsx: the admin form that inserts a new
 * case through the provider's `addCase` and then resets itself.
 */
module CaseFormModel {
  import opened Common
  import opened CaseStore

  /** The inserted fields: text verbatim, an empty category or year as `null`, no images as `null`. */
  function Payload(title: string, client: string, description: string, category: string,
                   year: string, images: seq<string>): (d: CaseDraft)
    ensures d.title == title && d.client == client && d.description == description
    ensures d.category.None? <==> category == ""
    ensures d.year.None? <==> year == ""
    ensures d.images.None? <==> images == []
  {
    CaseDraft(title, client, description,
              if category == "" then None else Some(category),
              if year == "" then None else Some(year),
              if |images| > 0 then Some(images) else None)
  }

  /** `value ?? fallback`. */
  function OrElse<T>(o: Option<T>, fallback: T): T {
    if o.Some? then o.value else fallback
  }

  /**
   * Nothing the form holds is lost: the fields come back from the payload,
   * reading `null` as the empty value, and the payload never holds an
   * empty category, year or image list.
   */
  lemma PayloadRoundTrip(title: string, client: string, description: string, category: string,
                         year: string, images: seq<string>)
    ensures var d := Payload(title, client, description, category, year, images);
            && OrElse(d.category, "") == category && OrElse(d.year, "") == year
            && OrElse(d.images, []) == images
            && d.category != Some("") && d.year != Some("") && d.images != Some([])
  {
  }

  /** The message a thrown value would show: an `Error`'s message, else "Failed to add case". */
  function SubmitError(e: Thrown): (message: string)
    ensures e.ErrorObject? ==> message == e.message
    ensures e.OtherValue? ==> message == "Failed to add case"
  {
    MessageOf(e, "Failed to add case")
  }

  /** The form's fields and status. */
  class Form {
    var title: string
    var client: string
    var description: string
    var category: string
    var year: string
    var images: seq<string>
    var loading: bool
    var error: Option<string>

    constructor ()
      ensures title == "" && client == "" && description == "" && category == "" && year == ""
      ensures images == [] && !loading && error == None
    {
      title, client, description, category, year := "", "", "", "", "";
      images, loading, error := [], false, None;
    }

    /** The upload callback: the image list becomes the uploaded URLs. */
    method SetImages(urls: seq<string>)
      modifies this
      ensures images == urls
      ensures title == old(title) && client == old(client) && description == old(description)
      ensures category == old(category) && year == old(year) && loading == old(loading) && error == old(error)
    {
      images := urls;
    }

    /**
     * `handleSubmit`: sends the payload of the current fields through
     * `addCase`. `addCase` catches its own failures, so the form is reset
     * whatever the database answered, the error stays cleared and loading
     * ends false; a failed insert shows up only in the provider's error.
     * The browser submits the form only with title, client and description
     * filled in: those inputs are `required`.
     */
    method HandleSubmit(store: Provider, response: Response<seq<Case>>) returns (sent: CaseDraft)
      requires title != "" && client != "" && description != ""
      modifies this, store
      ensures sent == Payload(old(title), old(client), old(description), old(category), old(year), old(images))
      ensures response.Ok? ==> store.cases == old(store.cases) + response.data && store.error == old(store.error)
      ensures response.Failed? ==>
                store.cases == old(store.cases) && store.error == Some(MessageOf(response.thrown, UnexpectedError))
      ensures store.slug == old(store.slug) && store.loading == old(store.loading)
      ensures title == "" && client == "" && description == "" && category == "" && year == ""
      ensures images == [] && !loading && error == None
    {
      loading := true;
      error := None;
      sent := Payload(title, client, description, category, year, images);
      store.AddCase(sent, response);
      title, client, description, category, year := "", "", "", "", "";
      images := [];
      loading := false;
    }
  }
}
