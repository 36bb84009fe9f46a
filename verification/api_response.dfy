/**
 * The response helpers controllers use: success, created, error and
 * paginated envelopes, all stamped with the request's correlation id.
 */
module ApiResponse {
  import opened Wrappers
  import opened PhpValues
  import opened Http
  import opened Envelopes

  /** The five values read from a length-aware paginator. */
  datatype Paginator = Paginator(items: PhpArray, total: int, perPage: int, currentPage: int, lastPage: int)

  /** `['request_id' => header ?? attribute]`. */
  function RequestMeta(req: Request): (meta: PhpArray)
    ensures Keys(meta) == {StrKey(RequestIdKey)}
    ensures req.requestIdHeader.Some? ==> Lookup(meta, StrKey(RequestIdKey)) == Some(Str(req.requestIdHeader.value))
    ensures req.requestIdHeader.None? ==> Lookup(meta, StrKey(RequestIdKey)) == Some(NullableStr(req.requestIdAttribute))
  {
    var meta := [Entry(StrKey(RequestIdKey), NullableStr(RequestIdOf(req)))];
    assert meta[0].key == StrKey(RequestIdKey);
    meta
  }

  /**
   * A success envelope. The caller's meta comes first and wins on a shared
   * key, so a caller-supplied `request_id` replaces the request's own id.
   */
  function Success(req: Request, data: Value := Null, message: string := "OK", status: int := 200, meta: PhpArray := []): (r: Response)
    ensures r.status == status && r.headers == map[]
    ensures IsSuccessEnvelope(r.body) && StrKey("error") !in FieldKeys(r.body)
    ensures Field(r.body, "data") == Some(data)
    ensures Field(r.body, "message") == Some(Str(message))
    ensures Keys(MetaOf(r.body)) == Keys(meta) + {StrKey(RequestIdKey)}
    ensures forall k :: k in Keys(meta) ==> Lookup(MetaOf(r.body), k) == Lookup(meta, k)
    ensures StrKey(RequestIdKey) !in Keys(meta) ==>
      Lookup(MetaOf(r.body), StrKey(RequestIdKey)) == Some(NullableStr(RequestIdOf(req)))
  {
    var m := Union(meta, RequestMeta(req));
    var entries := [Entry(StrKey("data"), data), Entry(StrKey("message"), Str(message)), Entry(StrKey("meta"), Arr(m))];
    Keys3(entries[0], entries[1], entries[2]);
    Lookup3(entries[0], entries[1], entries[2], StrKey("data"));
    Lookup3(entries[0], entries[1], entries[2], StrKey("message"));
    Lookup3(entries[0], entries[1], entries[2], StrKey("meta"));
    Response(status, map[], Arr(entries))
  }

  /** A success envelope with status 201 and no extra meta. */
  function Created(req: Request, data: Value := Null, message: string := "Created"): (r: Response)
    ensures r.status == 201 && r.headers == map[]
    ensures IsSuccessEnvelope(r.body) && StrKey("error") !in FieldKeys(r.body)
    ensures Field(r.body, "data") == Some(data)
    ensures Field(r.body, "message") == Some(Str(message))
    ensures Keys(MetaOf(r.body)) == {StrKey(RequestIdKey)}
    ensures Lookup(MetaOf(r.body), StrKey(RequestIdKey)) == Some(NullableStr(RequestIdOf(req)))
  {
    Success(req, data, message, 201)
  }

  /**
   * An error envelope; an empty details array is rendered as `null`, any
   * other is passed through as it is.
   */
  function Error(req: Request, message: string, status: int := 400, code: Option<string> := None, details: PhpArray := []): (r: Response)
    ensures r.status == status && r.headers == map[]
    ensures IsErrorEnvelope(r.body) && StrKey("data") !in FieldKeys(r.body)
    ensures Nested(r.body, "error", "code") == Some(NullableStr(code))
    ensures Nested(r.body, "error", "message") == Some(Str(message))
    ensures |details| == 0 ==> Nested(r.body, "error", "details") == Some(Null)
    ensures |details| > 0 ==> Nested(r.body, "error", "details") == Some(Arr(details))
    ensures Lookup(MetaOf(r.body), StrKey(RequestIdKey)) == Some(NullableStr(RequestIdOf(req)))
  {
    Response(status, map[], ErrorBody(NullableStr(code), message, Elvis(Arr(details), Null), NullableStr(RequestIdOf(req))))
  }

  /** `['total' => …, 'per_page' => …, 'current_page' => …, 'last_page' => …]`. */
  function PaginationFields(p: Paginator): PhpArray {
    [ Entry(StrKey("total"), Int(p.total)),
      Entry(StrKey("per_page"), Int(p.perPage)),
      Entry(StrKey("current_page"), Int(p.currentPage)),
      Entry(StrKey("last_page"), Int(p.lastPage)) ]
  }

  lemma PaginationFieldsShape(p: Paginator)
    ensures var pg := Arr(PaginationFields(p));
      && FieldKeys(pg) == {StrKey("total"), StrKey("per_page"), StrKey("current_page"), StrKey("last_page")}
      && Field(pg, "total") == Some(Int(p.total))
      && Field(pg, "per_page") == Some(Int(p.perPage))
      && Field(pg, "current_page") == Some(Int(p.currentPage))
      && Field(pg, "last_page") == Some(Int(p.lastPage))
  {
    var fields := PaginationFields(p);
    assert fields[1..] == [fields[1], fields[2], fields[3]];
    Keys3(fields[1], fields[2], fields[3]);
    KeysCons(fields);
    Lookup3(fields[1], fields[2], fields[3], StrKey("per_page"));
    Lookup3(fields[1], fields[2], fields[3], StrKey("current_page"));
    Lookup3(fields[1], fields[2], fields[3], StrKey("last_page"));
  }

  /** A success envelope of the page's items with the pagination block in meta. */
  function Paginated(req: Request, p: Paginator, message: string := "OK"): (r: Response)
    ensures r.status == 200 && r.headers == map[]
    ensures IsSuccessEnvelope(r.body) && StrKey("error") !in FieldKeys(r.body)
    ensures Field(r.body, "data") == Some(Arr(p.items))
    ensures Field(r.body, "message") == Some(Str(message))
    ensures Keys(MetaOf(r.body)) == {StrKey("pagination")} + {StrKey(RequestIdKey)}
    ensures Lookup(MetaOf(r.body), StrKey(RequestIdKey)) == Some(NullableStr(RequestIdOf(req)))
    ensures Lookup(MetaOf(r.body), StrKey("pagination")).Some?
    ensures var pg := Lookup(MetaOf(r.body), StrKey("pagination")).value;
      && FieldKeys(pg) == {StrKey("total"), StrKey("per_page"), StrKey("current_page"), StrKey("last_page")}
      && Field(pg, "total") == Some(Int(p.total))
      && Field(pg, "per_page") == Some(Int(p.perPage))
      && Field(pg, "current_page") == Some(Int(p.currentPage))
      && Field(pg, "last_page") == Some(Int(p.lastPage))
  {
    var meta := [Entry(StrKey("pagination"), Arr(PaginationFields(p)))];
    assert Keys(meta) == {StrKey("pagination")} by { assert meta[0].key == StrKey("pagination"); }
    assert Lookup(meta, StrKey("pagination")) == Some(Arr(PaginationFields(p)));
    PaginationFieldsShape(p);
    var r := Success(req, Arr(p.items), message, 200, meta);
    assert StrKey("pagination") in Keys(meta);
    assert Lookup(MetaOf(r.body), StrKey("pagination")) == Some(Arr(PaginationFields(p)));
    assert Keys(MetaOf(r.body)) == Keys(meta) + {StrKey(RequestIdKey)};
    r
  }
}
