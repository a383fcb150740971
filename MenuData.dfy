/** The menu data source: how one fetch of the menu endpoint turns into either the
    list of menu items or the error message the view shows. The network and
    `response.json()` are inputs (`FetchOutcome`); what the code does with them,
    the body of the `try` in `fetchMenu`, is `LoadMenu`. */
module MenuData {
  import opened JsValues

  /** One normalised menu row. Each field holds whatever truthy value the record
      carried under the capitalised or the lower-case key, or the empty string. */
  datatype MenuItem = MenuItem(name: Json, price: Json, category: Json, description: Json)

  /** A thrown value: an `Error` object carries a message, anything else does not. */
  datatype Thrown = ErrorObject(message: string) | OtherValue

  /** What `response.json()` does with the body. */
  datatype Body = Unparsable(reason: Thrown) | Parsed(data: Json)

  /** What `fetch` delivers: a rejected promise, or a response with a status and a body. */
  datatype FetchOutcome = NetworkFailure(reason: Thrown) | Response(status: nat, body: Body)

  const EmptyText := JStr("")

  /** The message of the TypeError thrown when reading `key` of null. */
  function NullRead(key: string): string {
    "Cannot read properties of null (reading '" + key + "')"
  }

  /** The message of the TypeError thrown when `items` is truthy but has no `map`. */
  const ItemsNotAnArray := "(data.items || []).map is not a function"

  /** `err instanceof Error ? err.message : "Unknown error"`. */
  function ErrorText(t: Thrown): string {
    match t
    case ErrorObject(m) => m
    case OtherValue => "Unknown error"
  }

  /** `response.ok`: a status in the range 200-299. */
  predicate IsOk(status: nat) {
    200 <= status <= 299
  }

  /** The message of the Error thrown for a response that is not ok. */
  function HttpError(status: nat): string {
    "HTTP " + DecimalString(status)
  }

  /** `rec[cap] || rec[low] || ""` for one field of a record that is not null. */
  function Field(rec: Json, cap: string, low: string): Json {
    Or(Lookup(rec, cap), Or(Lookup(rec, low), EmptyText))
  }

  /** The callback of the `.map`: reading `Title` of a null record throws;
      every other record yields an item, whatever keys it lacks. */
  function NormaliseRecord(rec: Json): (r: Result<MenuItem>)
    ensures r.Err? <==> rec.JNull?
    ensures r.Err? ==> r.message == NullRead("Title")
  {
    if rec.JNull? then Err(NullRead("Title"))
    else Ok(MenuItem(
      Field(rec, "Title", "name"),
      Field(rec, "Price", "price"),
      Field(rec, "Category", "category"),
      Field(rec, "Description", "description")))
  }

  /** `records.map(normalise)`: one item per record, in the same order, unless some
      record is null, in which case the whole map throws. */
  function NormaliseAll(records: seq<Json>): (r: Result<seq<MenuItem>>)
    ensures r.Ok? <==> forall k :: 0 <= k < |records| ==> !records[k].JNull?
    ensures r.Ok? ==> |r.value| == |records|
    ensures r.Ok? ==> forall k :: 0 <= k < |records| ==> NormaliseRecord(records[k]) == Ok(r.value[k])
    ensures r.Err? ==> r.message == NullRead("Title")
  {
    if records == [] then Ok([])
    else
      match NormaliseRecord(records[0])
      case Err(m) => Err(m)
      case Ok(item) =>
        match NormaliseAll(records[1..])
        case Err(m) => Err(m)
        case Ok(rest) => Ok([item] + rest)
  }

  /** `(data.items || []).map(normalise)`. */
  function NormaliseBody(data: Json): (r: Result<seq<MenuItem>>)
    ensures data.JNull? ==> r == Err(NullRead("items"))
    ensures !data.JNull? && !HasTruthy(data, "items") ==> r == Ok([])
    ensures HasTruthy(data, "items") && !data.fields["items"].JArray? ==> r == Err(ItemsNotAnArray)
    ensures r.Ok? && r.value != [] ==> HasTruthy(data, "items") && data.fields["items"].JArray?
    ensures Lookup(data, "items").Some? && data.fields["items"].JArray? ==>
              r == NormaliseAll(data.fields["items"].elems)
  {
    if data.JNull? then Err(NullRead("items"))
    else
      var items := Or(Lookup(data, "items"), JArray([]));
      if items.JArray? then NormaliseAll(items.elems) else Err(ItemsNotAnArray)
  }

  /** The `try` block of `fetchMenu`: what `setMenuItems` receives, or the message
      `setError` receives from the `catch`. */
  function LoadMenu(outcome: FetchOutcome): (r: Result<seq<MenuItem>>)
    ensures outcome.NetworkFailure? ==> r == Err(ErrorText(outcome.reason))
    ensures outcome.Response? && !IsOk(outcome.status) ==> r == Err(HttpError(outcome.status))
    ensures outcome.Response? && IsOk(outcome.status) && outcome.body.Unparsable? ==>
              r == Err(ErrorText(outcome.body.reason))
    ensures r.Ok? <==> outcome.Response? && IsOk(outcome.status) && outcome.body.Parsed?
                       && NormaliseBody(outcome.body.data).Ok?
    ensures outcome.Response? && IsOk(outcome.status) && outcome.body.Parsed? ==>
              r == NormaliseBody(outcome.body.data)
  {
    match outcome
    case NetworkFailure(t) => Err(ErrorText(t))
    case Response(status, body) =>
      if !IsOk(status) then Err(HttpError(status))
      else
        match body
        case Unparsable(t) => Err(ErrorText(t))
        case Parsed(data) => NormaliseBody(data)
  }

  /** Each field falls back from the capitalised key to the lower-case key to "":
      it is never missing, it comes from the capitalised key whenever that one is
      truthy, and from the lower-case key only when the capitalised one is not. */
  lemma FieldFallback(rec: Json, cap: string, low: string)
    ensures HasTruthy(rec, cap) ==> Field(rec, cap, low) == rec.fields[cap]
    ensures !HasTruthy(rec, cap) && HasTruthy(rec, low) ==> Field(rec, cap, low) == rec.fields[low]
    ensures !HasTruthy(rec, cap) && !HasTruthy(rec, low) ==> Field(rec, cap, low) == EmptyText
    ensures Truthy(Field(rec, cap, low)) || Field(rec, cap, low) == EmptyText
  {
  }

  /** A normalised item carries, per field, the fallback value of its record. */
  lemma NormaliseRecordFields(rec: Json)
    requires !rec.JNull?
    ensures var item := NormaliseRecord(rec).value;
      && item.name == Field(rec, "Title", "name")
      && item.price == Field(rec, "Price", "price")
      && item.category == Field(rec, "Category", "category")
      && item.description == Field(rec, "Description", "description")
  {
  }

  /** End to end: an ok response whose body holds an `items` array loads exactly
      when no record is null, and then yields one item per record, in order, each
      field taken by the fallback from its record. */
  lemma LoadMenuItems(status: nat, data: Json, records: seq<Json>)
    requires IsOk(status) && Lookup(data, "items") == Some(JArray(records))
    ensures var r := LoadMenu(Response(status, Parsed(data)));
      && (r.Ok? <==> forall k :: 0 <= k < |records| ==> !records[k].JNull?)
      && (r.Ok? ==> |r.value| == |records| && forall k :: 0 <= k < |records| ==>
            r.value[k] == MenuItem(Field(records[k], "Title", "name"), Field(records[k], "Price", "price"),
                                   Field(records[k], "Category", "category"),
                                   Field(records[k], "Description", "description")))
  {
    var r := LoadMenu(Response(status, Parsed(data)));
    assert r == NormaliseAll(records);
    if r.Ok? {
      forall k | 0 <= k < |records|
        ensures r.value[k] == MenuItem(Field(records[k], "Title", "name"), Field(records[k], "Price", "price"),
                                       Field(records[k], "Category", "category"),
                                       Field(records[k], "Description", "description"))
      {
        assert NormaliseRecord(records[k]) == Ok(r.value[k]);
        NormaliseRecordFields(records[k]);
      }
    }
  }

  /** The HTTP error message names the status: two statuses give two messages. */
  lemma {:induction false} HttpErrorInjective(a: nat, b: nat)
    ensures HttpError(a) == HttpError(b) ==> a == b
  {
    if HttpError(a) == HttpError(b) {
      assert DecimalString(a) == HttpError(a)[5..];
      assert DecimalString(b) == HttpError(b)[5..];
      DecimalRoundTrip(a);
      DecimalRoundTrip(b);
    }
  }

  /** A server error fails the load with the message "HTTP 500". */
  lemma ServerErrorMessage(body: Body)
    ensures LoadMenu(Response(500, body)) == Err("HTTP 500")
  {
    assert DecimalString(5) == "5";
    assert DecimalString(50) == "50";
    assert DecimalString(500) == "500";
  }

  /** A body without an `items` key loads as an empty menu, not as an error. */
  lemma EmptyObjectLoadsNothing()
    ensures LoadMenu(Response(200, Parsed(JObject(map[])))) == Ok([])
  {
  }

  /** A well-formed record with the capitalised keys keeps all four values. */
  lemma CapitalisedRecordScenario()
    ensures LoadMenu(Response(200, Parsed(JObject(map["items" := JArray([JObject(map[
              "Title" := JStr("Pad Thai"), "Price" := JStr("12"),
              "Category" := JStr("Noodles"), "Description" := JStr("...")])])]))))
            == Ok([MenuItem(JStr("Pad Thai"), JStr("12"), JStr("Noodles"), JStr("..."))])
  {
    var rec := JObject(map["Title" := JStr("Pad Thai"), "Price" := JStr("12"),
                           "Category" := JStr("Noodles"), "Description" := JStr("...")]);
    var item := MenuItem(JStr("Pad Thai"), JStr("12"), JStr("Noodles"), JStr("..."));
    assert NormaliseRecord(rec) == Ok(item);
    assert [rec][1..] == [] && [rec][0] == rec;
    assert NormaliseAll([]) == Ok([]);
    assert [item] + [] == [item];
    assert NormaliseAll([rec]) == Ok([item]);
  }
}
