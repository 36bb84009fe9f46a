/**
 * The two JSON body shapes: the success envelope `{data, message, meta}` and
 * the error envelope `{error: {code, message, details}, meta: {request_id}}`.
 */
module Envelopes {
  import opened Wrappers
  import opened PhpValues
  import opened Http

  /** The keys of a body that is an array; a scalar body has none. */
  function FieldKeys(body: Value): set<Key> {
    if body.Arr? then Keys(body.entries) else {}
  }

  /** `$body[$name]`, absent when the body is not an array or lacks the key. */
  function Field(body: Value, name: string): Option<Value> {
    if body.Arr? then Lookup(body.entries, StrKey(name)) else None
  }

  /** `$body[$outer][$inner]`. */
  function Nested(body: Value, outer: string, inner: string): Option<Value> {
    match Field(body, outer)
    case Some(v) => Field(v, inner)
    case None => None
  }

  /** The entries of `meta`, or none when the body has no array there. */
  function MetaOf(body: Value): PhpArray {
    match Field(body, "meta")
    case Some(Arr(m)) => m
    case _ => []
  }

  predicate IsErrorEnvelope(body: Value) {
    && FieldKeys(body) == {StrKey("error"), StrKey("meta")}
    && Field(body, "error").Some?
    && FieldKeys(Field(body, "error").value) == {StrKey("code"), StrKey("message"), StrKey("details")}
    && Field(body, "meta").Some? && Field(body, "meta").value.Arr?
    && Keys(MetaOf(body)) == {StrKey(RequestIdKey)}
  }

  predicate IsSuccessEnvelope(body: Value) {
    && FieldKeys(body) == {StrKey("data"), StrKey("message"), StrKey("meta")}
    && Field(body, "meta").Some? && Field(body, "meta").value.Arr?
    && StrKey(RequestIdKey) in Keys(MetaOf(body))
  }

  lemma Lookup3(a: Entry, b: Entry, c: Entry, k: Key)
    ensures Lookup([a, b, c], k) ==
      if a.key == k then Some(a.val)
      else if b.key == k then Some(b.val)
      else if c.key == k then Some(c.val)
      else None
  {
    assert [a, b, c][1..] == [b, c];
    assert [b, c][1..] == [c];
    assert [c][1..] == [];
    assert Lookup([c], k) == if c.key == k then Some(c.val) else None;
    assert Lookup([b, c], k) == if b.key == k then Some(b.val) else Lookup([c], k);
  }

  lemma Keys3(a: Entry, b: Entry, c: Entry)
    ensures Keys([a, b, c]) == {a.key, b.key, c.key}
  {
    assert [a, b, c][0] == a && [a, b, c][1] == b && [a, b, c][2] == c;
  }

  /** The error envelope built from its four parts. */
  function ErrorBody(code: Value, message: string, details: Value, requestId: Value): (body: Value)
    ensures IsErrorEnvelope(body)
    ensures StrKey("data") !in FieldKeys(body)
    ensures Nested(body, "error", "code") == Some(code)
    ensures Nested(body, "error", "message") == Some(Str(message))
    ensures Nested(body, "error", "details") == Some(details)
    ensures Lookup(MetaOf(body), StrKey(RequestIdKey)) == Some(requestId)
  {
    var meta := [Entry(StrKey(RequestIdKey), requestId)];
    var error := [Entry(StrKey("code"), code), Entry(StrKey("message"), Str(message)), Entry(StrKey("details"), details)];
    var entries := [Entry(StrKey("error"), Arr(error)), Entry(StrKey("meta"), Arr(meta))];
    assert entries[1..] == [Entry(StrKey("meta"), Arr(meta))];
    assert Keys(entries) == {StrKey("error"), StrKey("meta")} by {
      assert entries[0].key == StrKey("error") && entries[1].key == StrKey("meta");
    }
    assert Keys(meta) == {StrKey(RequestIdKey)} by { assert meta[0].key == StrKey(RequestIdKey); }
    Keys3(error[0], error[1], error[2]);
    Lookup3(error[0], error[1], error[2], StrKey("code"));
    Lookup3(error[0], error[1], error[2], StrKey("message"));
    Lookup3(error[0], error[1], error[2], StrKey("details"));
    Arr(entries)
  }
}
