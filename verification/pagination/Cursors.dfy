/** Cursors, their signed tokens, and the checks that refuse a cursor from another listing. */
module Cursors {
  import opened Common
  import opened SortOrder

  /** The JSON values a cursor payload can hold. */
  datatype Json = Null | Str(s: string) | Strs(items: seq<Option<string>>)

  /** A JSON object in serialisation order. */
  type Payload = seq<(string, Json)>

  /** `sortKey` is `Null` when the cursor carries none. */
  datatype Cursor = Cursor(id: nat, sortKey: Json, sortKeys: Option<seq<Option<string>>>, scope: Option<string>)

  datatype HttpError =
    | TamperedCursor        // 400: bad signature or non-canonical token
    | MalformedCursor       // 400: payload or seek value does not parse
    | CursorMismatch        // 400: cursor of another sort
    | InternalError         // 500: a fault the code does not translate

  /** What the code takes from its surroundings: the signer, the UUID text form, and Python's `str` or
      `isoformat` on sort values. */
  datatype Env = Env(
    dumps: Payload -> string,
    loads: string -> Option<Payload>,
    showId: nat -> string,
    readId: string -> Option<nat>,
    show: Value -> string)

  function PayloadOf(c: Cursor, env: Env): Payload {
    [("id", Str(env.showId(c.id)))]
    + (if c.sortKey != Null then [("sk", c.sortKey)] else [])
    + (if c.sortKeys.Some? then [("sks", Strs(c.sortKeys.value))] else [])
    + (if c.scope.Some? then [("sc", Str(c.scope.value))] else [])
  }

  function EncodeCursor(c: Cursor, env: Env): string {
    env.dumps(PayloadOf(c, env))
  }

  /** The laws of an ideal signer on what it is given to sign, and of `str`/`UUID`. Nothing says `loads` is
      injective: base64 text has several spellings, which is why `DecodeCursor` insists on the canonical one. */
  ghost predicate Lawful(env: Env) {
    && (forall c: Cursor :: env.loads(EncodeCursor(c, env)) == Some(PayloadOf(c, env)))
    && (forall id: nat :: env.readId(env.showId(id)) == Some(id))
    && (forall s: string :: env.show(Text(s)) == s)
  }

  /** `payload.get(key)`. */
  function Get(p: Payload, key: string): Json {
    if p == [] then Null else if p[0].0 == key then p[0].1 else Get(p[1..], key)
  }

  predicate Has(p: Payload, key: string) {
    p != [] && (p[0].0 == key || Has(p[1..], key))
  }

  /** Payload to cursor, with the type checks in the order the code makes them. */
  function ReadPayload(p: Payload, env: Env): Result<Cursor, HttpError> {
    var sks := Get(p, "sks");
    var sc := Get(p, "sc");
    if sks.Str? || sc.Strs? then Err(MalformedCursor)
    else if !Has(p, "id") || Get(p, "id").Null? then Err(MalformedCursor)
    else if Get(p, "id").Strs? then Err(InternalError)
    else
      var id := env.readId(Get(p, "id").s);
      if id.None? then Err(MalformedCursor)
      else Ok(Cursor(id.value, Get(p, "sk"),
                     if sks.Null? then None else Some(sks.items),
                     if sc.Null? then None else Some(sc.s)))
  }

  function DecodeCursor(token: string, env: Env): Result<Cursor, HttpError> {
    var p := env.loads(token);
    if p.None? then Err(TamperedCursor)
    else if token != env.dumps(p.value) then Err(TamperedCursor)
    else ReadPayload(p.value, env)
  }

  /** Reading back what `PayloadOf` wrote. */
  lemma PayloadRoundTrip(c: Cursor, env: Env)
    requires Lawful(env)
    ensures ReadPayload(PayloadOf(c, env), env) == Ok(c)
  {
    assert "id"[0] != "sk"[0] && "sk"[1] != "sc"[1] && "id"[0] != "sc"[0];
    var p := PayloadOf(c, env);
    var sk := if c.sortKey != Null then [("sk", c.sortKey)] else [];
    var sks := if c.sortKeys.Some? then [("sks", Strs(c.sortKeys.value))] else [];
    var sc := if c.scope.Some? then [("sc", Str(c.scope.value))] else [];
    assert p[1..] == sk + (sks + sc);
    assert p[0].0 == "id";
    GetSkips(sk, sks + sc, "sks");
    GetSkips(sk, sks + sc, "sc");
    GetSkips(sks, sc, "sc");
    if c.sortKey == Null {
      GetSkips(sks, sc, "sk");
      assert sk + (sks + sc) == sks + sc;
    }
    assert Get(p, "sk") == c.sortKey;
    if c.sortKeys.None? { assert sks + sc == sc; }
  }

  lemma GetSkips(head: Payload, tail: Payload, key: string)
    requires |head| <= 1 && (head != [] ==> head[0].0 != key)
    ensures Get(head + tail, key) == Get(tail, key)
  {
    if head != [] {
      assert (head + tail)[1..] == tail;
    } else {
      assert head + tail == tail;
    }
  }

  /** Every cursor survives the trip through its token. */
  lemma CursorRoundTrip(c: Cursor, env: Env)
    requires Lawful(env)
    ensures DecodeCursor(EncodeCursor(c, env), env) == Ok(c)
  {
    PayloadRoundTrip(c, env);
  }

  /** An accepted token re-encodes to itself exactly when its payload is one `EncodeCursor` writes. */
  lemma AcceptedTokenIsCanonical(token: string, env: Env)
    requires Lawful(env) && DecodeCursor(token, env).Ok?
    ensures var c := DecodeCursor(token, env).value;
            EncodeCursor(c, env) == token <==> env.loads(token) == Some(PayloadOf(c, env))
  {
    var c := DecodeCursor(token, env).value;
    assert env.loads(EncodeCursor(c, env)) == Some(PayloadOf(c, env));
  }

  /** The server signs nothing but cursor payloads, so no forged token verifies. */
  ghost predicate Unforgeable(env: Env) {
    forall token: string :: env.loads(token).Some? ==>
      exists c: Cursor :: env.loads(token) == Some(PayloadOf(c, env))
  }

  /** Two tokens never name one seek position. */
  lemma OneTokenPerPosition(s: string, t: string, env: Env)
    requires Lawful(env) && Unforgeable(env)
    requires DecodeCursor(s, env).Ok? && DecodeCursor(t, env).Ok?
    ensures DecodeCursor(s, env) == DecodeCursor(t, env) ==> s == t
    ensures EncodeCursor(DecodeCursor(s, env).value, env) == s
  {
    forall token: string | DecodeCursor(token, env).Ok?
      ensures EncodeCursor(DecodeCursor(token, env).value, env) == token
    {
      var c: Cursor :| env.loads(token) == Some(PayloadOf(c, env));
      PayloadRoundTrip(c, env);
      AcceptedTokenIsCanonical(token, env);
    }
  }

  /** Shape and identity: a paginator honours only a cursor of its own kind and of the requested scope. */
  function RefuseWrongCursor(cursor: Option<Cursor>, wantsComposite: bool, scope: Option<string>): Option<HttpError> {
    if cursor.None? then None
    else if cursor.value.sortKeys.Some? != wantsComposite || cursor.value.scope != scope then Some(CursorMismatch)
    else None
  }

  /** `str -> bind value`; `None` when it raises. */
  type Decoder = string -> Option<Value>

  function DecodeWith(decoders: Option<seq<Decoder>>, index: nat, s: string): Option<Value>
    requires decoders.Some? ==> index < |decoders.value|
  {
    if decoders.None? then Some(Text(s)) else decoders.value[index](s)
  }

  function DecodeKey(decoders: Option<seq<Decoder>>, index: nat, raw: Option<string>): Option<Key>
    requires decoders.Some? ==> index < |decoders.value|
  {
    if raw.None? then Some(None)
    else
      var v := DecodeWith(decoders, index, raw.value);
      if v.None? then None else Some(Some(v.value))
  }

  function ShowKey(k: Key, env: Env): Option<string> {
    if k.None? then None else Some(env.show(k.value))
  }

  /** Cursor strings to bind values: all of them, in order, or the one refusal that applies. */
  method DecodedSeek(raw: seq<Option<string>>, decoders: Option<seq<Decoder>>, width: nat)
    returns (r: Result<seq<Key>, HttpError>)
    requires decoders.Some? ==> |decoders.value| == width
    ensures |raw| != width <==> r == Err(CursorMismatch)
    ensures |raw| == width ==>
              (r.Ok? <==> forall i :: 0 <= i < width ==> DecodeKey(decoders, i, raw[i]).Some?)
    ensures |raw| == width && r.Err? ==> r.error == MalformedCursor
    ensures r.Ok? ==> |r.value| == width
    ensures r.Ok? ==> forall i :: 0 <= i < width ==> DecodeKey(decoders, i, raw[i]) == Some(r.value[i])
  {
    if |raw| != width {
      return Err(CursorMismatch);
    }
    var out: seq<Key> := [];
    for index := 0 to |raw|
      invariant |out| == index
      invariant forall i :: 0 <= i < index ==> DecodeKey(decoders, i, raw[i]) == Some(out[i])
    {
      if raw[index].None? {
        out := out + [None];
      } else {
        var v := DecodeWith(decoders, index, raw[index].value);
        if v.None? {
          assert DecodeKey(decoders, index, raw[index]).None?;
          return Err(MalformedCursor);
        }
        out := out + [Some(v.value)];
      }
    }
    return Ok(out);
  }
}
