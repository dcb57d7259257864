/** The canonical text whose SHA-256 is the request digest: JSON with sorted keys over method,
    authority, path, application headers and the hash of the body. */
module Digest {
  import opened Wrappers
  import opened AsciiJson

  type Headers = seq<(string, string)>

  /** bodyHash is the hexadecimal SHA-256 of the body. */
  datatype Message = Message(verb: string, authority: string, path: string, headers: Headers, bodyHash: string)

  const TRANSPORT_HEADERS: set<string> :=
    {"host", "content-length", "transfer-encoding", "connection", "te", "trailer", "keep-alive", "upgrade"}

  predicate StartsWith(s: string, prefix: string) { prefix <= s }

  predicate IsReserved(name: string) {
    || StartsWith(name, "x-td-") || StartsWith(name, "x-asr-")
    || StartsWith(name, "x-forwarded-") || StartsWith(name, "x-envoy-")
    || name == "forwarded" || name == "x-request-id"
  }

  predicate IsApplication(name: string) {
    name !in TRANSPORT_HEADERS && !StartsWith(name, ":") && !IsReserved(name)
  }

  // ---- Dictionaries as lists of items ----

  ghost predicate DistinctKeys(h: Headers) { forall i, j | 0 <= i < j < |h| :: h[i].0 != h[j].0 }

  function Lookup(h: Headers, name: string): Option<string> {
    if h == [] then None else if h[0].0 == name then Some(h[0].1) else Lookup(h[1..], name)
  }

  function ApplicationHeaders(h: Headers): Headers {
    if h == [] then []
    else if IsApplication(h[0].0) then [h[0]] + ApplicationHeaders(h[1..])
    else ApplicationHeaders(h[1..])
  }

  // ---- Sorting by key ----

  /** The order of Python strings, by code points. */
  predicate AtMost(a: string, b: string) {
    a == "" || (b != "" && (a[0] < b[0] || (a[0] == b[0] && AtMost(a[1..], b[1..]))))
  }

  function Insert(item: (string, string), h: Headers): Headers {
    if h == [] || AtMost(item.0, h[0].0) then [item] + h else [h[0]] + Insert(item, h[1..])
  }

  function Sort(h: Headers): Headers { if h == [] then [] else Insert(h[0], Sort(h[1..])) }

  ghost predicate Sorted(h: Headers) { forall i, j | 0 <= i < j < |h| :: AtMost(h[i].0, h[j].0) && h[i].0 != h[j].0 }

  lemma {:induction false} AtMostIsTotal(a: string, b: string)
    ensures AtMost(a, b) || AtMost(b, a)
  {
    if a != "" && b != "" && a[0] == b[0] { AtMostIsTotal(a[1..], b[1..]); }
  }

  lemma {:induction false} AtMostIsAntisymmetric(a: string, b: string)
    requires AtMost(a, b) && AtMost(b, a)
    ensures a == b
  {
    if a != "" && b != "" {
      AtMostIsAntisymmetric(a[1..], b[1..]);
      assert a == [a[0]] + a[1..] && b == [b[0]] + b[1..];
    }
  }

  lemma {:induction false} AtMostIsTransitive(a: string, b: string, c: string)
    requires AtMost(a, b) && AtMost(b, c)
    ensures AtMost(a, c)
  {
    if a != "" && a[0] == b[0] && b[0] == c[0] { AtMostIsTransitive(a[1..], b[1..], c[1..]); }
  }

  lemma {:induction false} InsertKeepsItems(item: (string, string), h: Headers, x: (string, string))
    ensures x in Insert(item, h) <==> x == item || x in h
  {
    if h != [] && !AtMost(item.0, h[0].0) {
      InsertKeepsItems(item, h[1..], x);
      assert h == [h[0]] + h[1..];
    }
  }

  lemma {:induction false} SortKeepsItems(h: Headers, x: (string, string))
    ensures x in Sort(h) <==> x in h
  {
    if h != [] {
      SortKeepsItems(h[1..], x);
      InsertKeepsItems(h[0], Sort(h[1..]), x);
      assert h == [h[0]] + h[1..];
    }
  }

  lemma {:induction false} SortedCons(head: (string, string), tail: Headers)
    requires Sorted(tail) && forall x | x in tail :: AtMost(head.0, x.0) && head.0 != x.0
    ensures Sorted([head] + tail)
  {
    var all := [head] + tail;
    forall i, j | 0 <= i < j < |all| ensures AtMost(all[i].0, all[j].0) && all[i].0 != all[j].0 {
      assert all[j] == tail[j - 1];
    }
  }

  lemma {:induction false} SortedTail(h: Headers)
    requires h != [] && Sorted(h)
    ensures Sorted(h[1..])
    ensures forall x | x in h[1..] :: AtMost(h[0].0, x.0) && h[0].0 != x.0
  {
    forall x | x in h[1..] ensures AtMost(h[0].0, x.0) && h[0].0 != x.0 {
      var i :| 0 <= i < |h[1..]| && h[1..][i] == x;
      assert h[i + 1] == x;
    }
  }

  lemma {:induction false} InsertSorts(item: (string, string), h: Headers)
    requires Sorted(h) && forall x | x in h :: x.0 != item.0
    ensures Sorted(Insert(item, h))
  {
    if h == [] {
    } else if AtMost(item.0, h[0].0) {
      SortedTail(h);
      forall x | x in h ensures AtMost(item.0, x.0) && item.0 != x.0 {
        if x != h[0] { assert x in h[1..]; AtMostIsTransitive(item.0, h[0].0, x.0); }
      }
      SortedCons(item, h);
    } else {
      SortedTail(h);
      InsertSorts(item, h[1..]);
      AtMostIsTotal(item.0, h[0].0);
      forall x | x in Insert(item, h[1..]) ensures AtMost(h[0].0, x.0) && h[0].0 != x.0 {
        InsertKeepsItems(item, h[1..], x);
      }
      SortedCons(h[0], Insert(item, h[1..]));
    }
  }

  lemma {:induction false} SortSorts(h: Headers)
    requires DistinctKeys(h)
    ensures Sorted(Sort(h))
  {
    if h != [] {
      SortSorts(h[1..]);
      forall x | x in Sort(h[1..]) ensures x.0 != h[0].0 {
        SortKeepsItems(h[1..], x);
        var i :| 0 <= i < |h[1..]| && h[1..][i] == x;
        assert h[i + 1] == x;
      }
      InsertSorts(h[0], Sort(h[1..]));
    }
  }

  lemma {:induction false} SameHead(g: Headers, h: Headers)
    requires g != [] && h != [] && Sorted(g) && Sorted(h)
    requires g[0] in h && h[0] in g
    ensures g[0] == h[0]
  {
    SortedTail(g);
    SortedTail(h);
    if g[0] != h[0] {
      assert g == [g[0]] + g[1..] && h == [h[0]] + h[1..];
      assert g[0] in h[1..] && h[0] in g[1..];
      AtMostIsAntisymmetric(g[0].0, h[0].0);
    }
  }

  lemma {:induction false} SomeItem(h: Headers)
    ensures h != [] ==> exists x :: x in h
  {
    if h != [] { assert h[0] in h; }
  }

  /** A sorted list is determined by its items. */
  lemma {:induction false} SortedIsCanonical(g: Headers, h: Headers)
    requires Sorted(g) && Sorted(h) && forall x :: x in g <==> x in h
    ensures g == h
  {
    if g == [] {
      SomeItem(h);
    } else {
      assert g[0] in h;
      assert h[0] in g;
      SameHead(g, h);
      SortedTail(g);
      SortedTail(h);
      assert g == [g[0]] + g[1..] && h == [h[0]] + h[1..];
      forall x ensures x in g[1..] <==> x in h[1..] {
        assert x in g <==> x in h;
      }
      SortedIsCanonical(g[1..], h[1..]);
    }
  }

  // ---- The canonical text ----

  function Members(h: Headers, rest: string): string {
    if h == [] then "}" + rest
    else Quoted(h[0].0, ":" + Quoted(h[0].1, if |h| == 1 then "}" + rest else "," + Members(h[1..], rest)))
  }

  /** json.dumps(value, sort_keys=True, separators=(",", ":")). */
  function Canonical(m: Message): string {
    "{\"authority\":" + Quoted(m.authority,
    ",\"body_sha256\":" + Quoted(m.bodyHash,
    ",\"headers\":{" + Members(Sort(ApplicationHeaders(m.headers)),
    ",\"method\":" + Quoted(m.verb,
    ",\"path\":" + Quoted(m.path, "}")))))
  }

  lemma {:induction false} MembersSplit(g: Headers, h: Headers, x: string, y: string)
    requires Members(g, x) == Members(h, y)
    ensures g == h && x == y
    decreases |g|
  {
    if g == [] || h == [] {
      assert Members(g, x)[0] == Members(h, y)[0];
      Peel("}", x, y);
    } else {
      var after := if |g| == 1 then "}" + x else "," + Members(g[1..], x);
      var after' := if |h| == 1 then "}" + y else "," + Members(h[1..], y);
      QuotedSplits(g[0].0, h[0].0, ":" + Quoted(g[0].1, after), ":" + Quoted(h[0].1, after'));
      Peel(":", Quoted(g[0].1, after), Quoted(h[0].1, after'));
      QuotedSplits(g[0].1, h[0].1, after, after');
      assert after[0] == after'[0];
      if |g| == 1 {
        Peel("}", x, y);
      } else {
        Peel(",", Members(g[1..], x), Members(h[1..], y));
        MembersSplit(g[1..], h[1..], x, y);
      }
      assert g == [g[0]] + g[1..] && h == [h[0]] + h[1..];
    }
  }

  lemma {:induction false} FieldSplits(key: string, s: string, t: string, x: string, y: string)
    requires key + Quoted(s, x) == key + Quoted(t, y)
    ensures s == t && x == y
  {
    Peel(key, Quoted(s, x), Quoted(t, y));
    QuotedSplits(s, t, x, y);
  }

  lemma {:induction false} CanonicalIsInjective(m: Message, n: Message)
    requires Canonical(m) == Canonical(n)
    ensures m.verb == n.verb && m.authority == n.authority && m.path == n.path && m.bodyHash == n.bodyHash
    ensures Sort(ApplicationHeaders(m.headers)) == Sort(ApplicationHeaders(n.headers))
  {
    var p, q := ",\"path\":" + Quoted(m.path, "}"), ",\"path\":" + Quoted(n.path, "}");
    var e, f := ",\"method\":" + Quoted(m.verb, p), ",\"method\":" + Quoted(n.verb, q);
    var g, h := Sort(ApplicationHeaders(m.headers)), Sort(ApplicationHeaders(n.headers));
    var a, b := ",\"headers\":{" + Members(g, e), ",\"headers\":{" + Members(h, f);
    var c, d := ",\"body_sha256\":" + Quoted(m.bodyHash, a), ",\"body_sha256\":" + Quoted(n.bodyHash, b);
    FieldSplits("{\"authority\":", m.authority, n.authority, c, d);
    FieldSplits(",\"body_sha256\":", m.bodyHash, n.bodyHash, a, b);
    Peel(",\"headers\":{", Members(g, e), Members(h, f));
    MembersSplit(g, h, e, f);
    FieldSplits(",\"method\":", m.verb, n.verb, p, q);
    FieldSplits(",\"path\":", m.path, n.path, "}", "}");
  }

  // ---- Which headers are bound ----

  lemma {:induction false} LookupIsMembership(h: Headers, name: string, value: string)
    requires DistinctKeys(h)
    ensures Lookup(h, name) == Some(value) <==> (name, value) in h
  {
    if h != [] {
      LookupIsMembership(h[1..], name, value);
      assert h == [h[0]] + h[1..];
      if h[0].0 == name {
        forall x | x in h[1..] ensures x.0 != name {
          var i :| 0 <= i < |h[1..]| && h[1..][i] == x;
          assert h[i + 1] == x;
        }
      }
    }
  }

  lemma {:induction false} ApplicationItems(h: Headers, x: (string, string))
    ensures x in ApplicationHeaders(h) <==> x in h && IsApplication(x.0)
  {
    if h != [] {
      ApplicationItems(h[1..], x);
      assert h == [h[0]] + h[1..];
    }
  }

  lemma {:induction false} ApplicationKeysDistinct(h: Headers)
    requires DistinctKeys(h)
    ensures DistinctKeys(ApplicationHeaders(h))
  {
    if h != [] {
      ApplicationKeysDistinct(h[1..]);
      var rest := ApplicationHeaders(h[1..]);
      forall i | 0 <= i < |rest| ensures rest[i].0 != h[0].0 {
        ApplicationItems(h[1..], rest[i]);
        var j :| 0 <= j < |h[1..]| && h[1..][j] == rest[i];
        assert h[j + 1] == rest[i];
      }
    }
  }

  ghost predicate SameApplicationHeaders(g: Headers, h: Headers) {
    forall name | IsApplication(name) :: Lookup(g, name) == Lookup(h, name)
  }

  lemma {:induction false} SortedItems(h: Headers, x: (string, string))
    ensures x in Sort(ApplicationHeaders(h)) <==> x in h && IsApplication(x.0)
  {
    SortKeepsItems(ApplicationHeaders(h), x);
    ApplicationItems(h, x);
  }

  lemma {:induction false} SameHeadersSortAlike(g: Headers, h: Headers)
    requires DistinctKeys(g) && DistinctKeys(h)
    ensures Sort(ApplicationHeaders(g)) == Sort(ApplicationHeaders(h)) <==> SameApplicationHeaders(g, h)
  {
    if SameApplicationHeaders(g, h) {
      forall x ensures x in Sort(ApplicationHeaders(g)) <==> x in Sort(ApplicationHeaders(h)) {
        SortedItems(g, x);
        SortedItems(h, x);
        LookupIsMembership(g, x.0, x.1);
        LookupIsMembership(h, x.0, x.1);
      }
      ApplicationKeysDistinct(g);
      ApplicationKeysDistinct(h);
      SortSorts(ApplicationHeaders(g));
      SortSorts(ApplicationHeaders(h));
      SortedIsCanonical(Sort(ApplicationHeaders(g)), Sort(ApplicationHeaders(h)));
    }
    if Sort(ApplicationHeaders(g)) == Sort(ApplicationHeaders(h)) {
      forall name | IsApplication(name) ensures Lookup(g, name) == Lookup(h, name) {
        SameLookup(g, h, name);
      }
    }
  }

  lemma {:induction false} SameLookup(g: Headers, h: Headers, name: string)
    requires DistinctKeys(g) && DistinctKeys(h) && IsApplication(name)
    requires Sort(ApplicationHeaders(g)) == Sort(ApplicationHeaders(h))
    ensures Lookup(g, name) == Lookup(h, name)
  {
    if Lookup(g, name).Some? {
      OneWay(g, h, name, Lookup(g, name).value);
    } else if Lookup(h, name).Some? {
      OneWay(h, g, name, Lookup(h, name).value);
    }
  }

  lemma {:induction false} OneWay(g: Headers, h: Headers, name: string, value: string)
    requires DistinctKeys(g) && DistinctKeys(h) && IsApplication(name)
    requires Sort(ApplicationHeaders(g)) == Sort(ApplicationHeaders(h)) && Lookup(g, name) == Some(value)
    ensures Lookup(h, name) == Some(value)
  {
    LookupIsMembership(g, name, value);
    SortedItems(g, (name, value));
    SortedItems(h, (name, value));
    LookupIsMembership(h, name, value);
  }

  // ---- Main result ----

  /** The canonical text binds exactly the method, the authority, the path, the body hash and
      every application header: two messages share it if and only if they agree on these.  In
      particular the order of headers, and any transport, pseudo or reserved header, is free. */
  lemma {:induction false} DigestBinds(m: Message, n: Message)
    requires DistinctKeys(m.headers) && DistinctKeys(n.headers)
    ensures Canonical(m) == Canonical(n) <==>
            && m.verb == n.verb && m.authority == n.authority && m.path == n.path && m.bodyHash == n.bodyHash
            && SameApplicationHeaders(m.headers, n.headers)
  {
    SameHeadersSortAlike(m.headers, n.headers);
    if Canonical(m) == Canonical(n) { CanonicalIsInjective(m, n); }
  }

  /** A header that is not an application header may be put in anywhere. */
  lemma {:induction false} IgnoredHeaderIsFree(h: Headers, i: nat, name: string, value: string)
    requires i <= |h| && !IsApplication(name)
    ensures ApplicationHeaders(h[..i] + [(name, value)] + h[i..]) == ApplicationHeaders(h)
  {
    var all := h[..i] + [(name, value)] + h[i..];
    if i == 0 {
      assert all[1..] == h;
    } else {
      assert all[0] == h[0] && all[1..] == h[1..][..i - 1] + [(name, value)] + h[1..][i - 1..];
      IgnoredHeaderIsFree(h[1..], i - 1, name, value);
    }
  }
}
