/** A signer that meets every law asked of one: the laws are consistent. */
module LawfulSigner {
  import opened Common
  import opened SortOrder
  import opened Cursors

  function Ones(n: nat): string {
    seq(n, _ => '1')
  }

  /** Length in unary, then the characters. */
  function WriteText(s: string): string { Ones(|s|) + "0" + s }

  function WriteKey(k: Option<string>): string { if k.None? then "n" else "s" + WriteText(k.value) }

  function WriteKeys(keys: seq<Option<string>>): string {
    if keys == [] then "e" else "k" + (WriteKey(keys[0]) + WriteKeys(keys[1..]))
  }

  function WriteJson(j: Json): string {
    match j
    case Null => "n"
    case Str(s) => "s" + WriteText(s)
    case Strs(items) => "l" + WriteKeys(items)
  }

  function WritePayload(p: Payload): string {
    if p == [] then "e" else "p" + (WriteText(p[0].0) + (WriteJson(p[0].1) + WritePayload(p[1..])))
  }

  lemma TextIsReadable(s: string, t: string, x: string, y: string)
    requires WriteText(s) + x == WriteText(t) + y
    ensures s == t && x == y
  {
    var a, b := WriteText(s) + x, WriteText(t) + y;
    assert forall i :: 0 <= i < |s| ==> a[i] == '1';
    assert forall i :: 0 <= i < |t| ==> b[i] == '1';
    assert a[|s|] == '0' && b[|t|] == '0';
    assert |s| == |t|;
    assert a[|s| + 1..] == s + x && b[|t| + 1..] == t + y;
    SplitAt(s, x, t, y);
  }

  lemma SplitAt(a: string, x: string, b: string, y: string)
    requires |a| == |b| && a + x == b + y
    ensures a == b && x == y
  {
    assert (a + x)[..|a|] == a && (b + y)[..|b|] == b;
    assert (a + x)[|a|..] == x && (b + y)[|b|..] == y;
  }

  lemma SplitKey(k: Option<string>, x: string)
    ensures (WriteKey(k) + x)[0] == if k.None? then 'n' else 's'
    ensures (WriteKey(k) + x)[1..] == if k.None? then x else WriteText(k.value) + x
  {
    if k.Some? { assert "s" + WriteText(k.value) + x == "s" + (WriteText(k.value) + x); }
  }

  lemma KeyIsReadable(a: Option<string>, b: Option<string>, x: string, y: string)
    requires WriteKey(a) + x == WriteKey(b) + y
    ensures a == b && x == y
  {
    SplitKey(a, x);
    SplitKey(b, y);
    if a.Some? { TextIsReadable(a.value, b.value, x, y); }
  }

  lemma SplitKeys(keys: seq<Option<string>>, x: string)
    ensures (WriteKeys(keys) + x)[0] == if keys == [] then 'e' else 'k'
    ensures (WriteKeys(keys) + x)[1..] == if keys == [] then x else WriteKey(keys[0]) + (WriteKeys(keys[1..]) + x)
  {
  }

  lemma {:induction false} KeysAreReadable(a: seq<Option<string>>, b: seq<Option<string>>, x: string, y: string)
    requires WriteKeys(a) + x == WriteKeys(b) + y
    ensures a == b && x == y
  {
    SplitKeys(a, x);
    SplitKeys(b, y);
    if a != [] {
      KeyIsReadable(a[0], b[0], WriteKeys(a[1..]) + x, WriteKeys(b[1..]) + y);
      KeysAreReadable(a[1..], b[1..], x, y);
    }
  }

  lemma JsonIsReadable(a: Json, b: Json, x: string, y: string)
    requires WriteJson(a) + x == WriteJson(b) + y
    ensures a == b && x == y
  {
    var p, q := WriteJson(a) + x, WriteJson(b) + y;
    assert p[0] == (match a case Null => 'n' case Str(_) => 's' case Strs(_) => 'l');
    assert q[0] == (match b case Null => 'n' case Str(_) => 's' case Strs(_) => 'l');
    DropFirst(a, x);
    DropFirst(b, y);
    match a
    case Null =>
    case Str(s) => TextIsReadable(s, b.s, x, y);
    case Strs(items) => KeysAreReadable(items, b.items, x, y);
  }

  lemma DropFirst(j: Json, rest: string)
    ensures (WriteJson(j) + rest)[1..]
         == match j case Null => rest case Str(s) => WriteText(s) + rest case Strs(items) => WriteKeys(items) + rest
  {
  }

  lemma {:induction false} PayloadIsReadable(a: Payload, b: Payload)
    requires WritePayload(a) == WritePayload(b)
    ensures a == b
  {
    assert WritePayload(a)[0] == if a == [] then 'e' else 'p';
    assert WritePayload(b)[0] == if b == [] then 'e' else 'p';
    if a != [] {
      var x, y := WriteJson(a[0].1) + WritePayload(a[1..]), WriteJson(b[0].1) + WritePayload(b[1..]);
      assert WritePayload(a)[1..] == WriteText(a[0].0) + x && WritePayload(b)[1..] == WriteText(b[0].0) + y;
      TextIsReadable(a[0].0, b[0].0, x, y);
      JsonIsReadable(a[0].1, b[0].1, WritePayload(a[1..]), WritePayload(b[1..]));
      PayloadIsReadable(a[1..], b[1..]);
      assert a == [a[0]] + a[1..] && b == [b[0]] + b[1..];
    }
  }

  /** A signer that keeps to this text form and verifies nothing else. */
  ghost function ReadSigned(token: string): Option<Payload> {
    if c: Cursor :| WritePayload(PlainPayload(c)) == token then Some(PlainPayload(c)) else None
  }

  function PlainPayload(c: Cursor): Payload {
    PayloadOf(c, Env(WritePayload, _ => None, Ones, s => Some(|s|), _ => ""))
  }

  /** The signer's laws and unforgeability hold together. */
  lemma LawfulSignerExists() returns (env: Env)
    ensures Lawful(env) && Unforgeable(env)
  {
    env := Env(WritePayload, ReadSigned, Ones, s => Some(|s|), (v: Value) => if v.Text? then v.s else "");
    forall c: Cursor ensures env.loads(EncodeCursor(c, env)) == Some(PayloadOf(c, env)) {
      assert PayloadOf(c, env) == PlainPayload(c);
      var d: Cursor :| WritePayload(PlainPayload(d)) == WritePayload(PlainPayload(c))
                       && ReadSigned(WritePayload(PlainPayload(c))) == Some(PlainPayload(d));
      PayloadIsReadable(PlainPayload(d), PlainPayload(c));
    }
    forall token: string | env.loads(token).Some?
      ensures exists c: Cursor :: env.loads(token) == Some(PayloadOf(c, env))
    {
      var c: Cursor :| WritePayload(PlainPayload(c)) == token && ReadSigned(token) == Some(PlainPayload(c));
      assert PayloadOf(c, env) == PlainPayload(c);
    }
  }
}
