/**
 * The request headers the forwarding handler passes on: every inbound header
 * whose lower-cased name is not one of the nine hop-by-hop names, collected
 * into a dict.
 *
 * Headers are (name, value) pairs in the order the framework lists them.
 * The comprehension has two effects, modelled separately: the condition
 * drops hop-by-hop headers (`FilterHopByHop`), and building a dict keeps one
 * entry per name, where a later value overwrites an earlier one but the name
 * keeps the position it was first inserted at (`DictOf`). A dict is
 * represented by the sequence of its entries in insertion order.
 */
module HeaderFilter {
  import opened Text

  type Header = (string, string)

  /**
   * The hop-by-hop headers of section 13.5.1 of RFC 2616, plus `host`, which
   * the outbound client sets itself.
   */
  const HopByHopHeaders: seq<string> := [
    "connection",
    "keep-alive",
    "proxy-authenticate",
    "proxy-authorization",
    "te",
    "trailers",
    "transfer-encoding",
    "upgrade",
    "host"
  ]

  /**
   * Whether the name is one of the nine, compared after lower-casing; every
   * such name is 2 to 19 characters long, all of them letters or hyphens.
   */
  predicate IsHopByHop(name: string): (b: bool)
    ensures b ==> 2 <= |name| <= 19
    ensures b ==> forall i :: 0 <= i < |name| ==> IsNameChar(name[i])
  {
    var lower := AsciiLower(name);
    if lower in HopByHopHeaders then NameCharsOfLower(name, lower); true else false
  }

  predicate IsNameChar(c: char) {
    'a' <= c <= 'z' || 'A' <= c <= 'Z' || c == '-'
  }

  lemma NameCharsOfLower(name: string, lower: string)
    requires lower == AsciiLower(name) && lower in HopByHopHeaders
    ensures 2 <= |name| <= 19
    ensures forall i :: 0 <= i < |name| ==> IsNameChar(name[i])
  {
    forall i | 0 <= i < |name| ensures IsNameChar(name[i]) {
      assert IsNameChar(lower[i]);
    }
  }

  /** The test ignores case: a name and its lower-case form are dropped alike. */
  lemma IsHopByHopIgnoresCase(name: string)
    ensures IsHopByHop(name) <==> IsHopByHop(AsciiLower(name))
  {
    AsciiLowerIdempotent(name);
  }

  /** The names of tests/test_proxy.py and of the framework's own `host` header. */
  lemma IsHopByHopExamples()
    ensures IsHopByHop("Connection") && IsHopByHop("HOST") && IsHopByHop("Transfer-Encoding")
    ensures !IsHopByHop("X-Custom-Header") && !IsHopByHop("Content-Type")
  {
    assert AsciiLower("Connection") == "connection";
    assert AsciiLower("HOST") == "host";
    assert AsciiLower("Transfer-Encoding") == "transfer-encoding";
    assert AsciiLower("X-Custom-Header") == "x-custom-header";
    assert AsciiLower("Content-Type") == "content-type";
  }

  /**
   * The list holds nine distinct names, all already in lower case, so each
   * listed name is itself dropped, whatever its capitalisation.
   */
  lemma HopByHopHeadersAreLowerCase()
    ensures |HopByHopHeaders| == 9
    ensures forall i, j :: 0 <= i < j < |HopByHopHeaders| ==> HopByHopHeaders[i] != HopByHopHeaders[j]
    ensures forall h :: h in HopByHopHeaders ==> AsciiLower(h) == h && IsHopByHop(h)
  {
    forall h | h in HopByHopHeaders
      ensures AsciiLower(h) == h
    {
      AsciiLowerFixesLowerCase(h);
    }
  }

  // ---------------------------------------------------------------------------
  // The condition of the comprehension

  /** The headers whose names are not hop-by-hop, in their original order. */
  function FilterHopByHop(headers: seq<Header>): (kept: seq<Header>)
    ensures |kept| <= |headers|
    ensures forall h :: h in kept <==> h in headers && !IsHopByHop(h.0)
    decreases |headers|
  {
    if headers == [] then []
    else (if IsHopByHop(headers[0].0) then [] else [headers[0]]) + FilterHopByHop(headers[1..])
  }

  /** `xs` can be obtained from `ys` by deleting elements. */
  predicate IsSubsequence<T(==)>(xs: seq<T>, ys: seq<T>)
    decreases |ys|
  {
    if xs == [] then true
    else if ys == [] then false
    else if xs[0] == ys[0] then IsSubsequence(xs[1..], ys[1..])
    else IsSubsequence(xs, ys[1..])
  }

  /** The filter only deletes: what it keeps stays in the input's order. */
  lemma {:induction false} FilterIsSubsequence(headers: seq<Header>)
    ensures IsSubsequence(FilterHopByHop(headers), headers)
    decreases |headers|
  {
    if headers != [] {
      var kept := FilterHopByHop(headers[1..]);
      FilterIsSubsequence(headers[1..]);
      if IsHopByHop(headers[0].0) {
        assert FilterHopByHop(headers) == kept;
        if kept != [] {
          assert kept[0] in kept;
        }
      } else {
        assert FilterHopByHop(headers) == [headers[0]] + kept;
        assert ([headers[0]] + kept)[1..] == kept;
      }
    }
  }

  /**
   * Every copy of a header survives when its name is not hop-by-hop, and none
   * does when it is: nothing is added, duplicated, or altered.
   */
  lemma {:induction false} FilterKeepsEveryCopy(headers: seq<Header>, h: Header)
    ensures multiset(FilterHopByHop(headers))[h] == if IsHopByHop(h.0) then 0 else multiset(headers)[h]
    decreases |headers|
  {
    if headers != [] {
      assert headers == [headers[0]] + headers[1..];
      FilterKeepsEveryCopy(headers[1..], h);
    }
  }

  /** Filtering distributes over concatenation. */
  lemma {:induction false} FilterAppend(a: seq<Header>, b: seq<Header>)
    ensures FilterHopByHop(a + b) == FilterHopByHop(a) + FilterHopByHop(b)
    decreases |a|
  {
    if a == [] {
      assert a + b == b;
    } else {
      assert (a + b)[1..] == a[1..] + b;
      FilterAppend(a[1..], b);
    }
  }

  /** Headers without a hop-by-hop name pass through untouched. */
  lemma {:induction false} FilterKeepsClean(headers: seq<Header>)
    requires forall h :: h in headers ==> !IsHopByHop(h.0)
    ensures FilterHopByHop(headers) == headers
    decreases |headers|
  {
    if headers != [] {
      assert headers[0] in headers;
      FilterKeepsClean(headers[1..]);
    }
  }

  /** Filtering twice is filtering once. */
  lemma FilterIdempotent(headers: seq<Header>)
    ensures FilterHopByHop(FilterHopByHop(headers)) == FilterHopByHop(headers)
  {
    FilterKeepsClean(FilterHopByHop(headers));
  }

  // ---------------------------------------------------------------------------
  // Building the dict

  function Names(d: seq<Header>): (names: seq<string>)
    ensures |names| == |d|
    ensures forall i :: 0 <= i < |d| ==> names[i] == d[i].0
  {
    seq(|d|, i requires 0 <= i < |d| => d[i].0)
  }

  lemma NamesCons(x: Header, d: seq<Header>)
    ensures Names([x] + d) == [x.0] + Names(d)
  {
  }

  lemma NamesSnoc(d: seq<Header>, x: Header)
    ensures Names(d + [x]) == Names(d) + [x.0]
  {
  }

  predicate Distinct(names: seq<string>) {
    forall i, j :: 0 <= i < j < |names| ==> names[i] != names[j]
  }

  /** No two entries share a name, as with the keys of a dict. */
  predicate UniqueNames(d: seq<Header>) {
    Distinct(Names(d))
  }

  lemma DistinctSnoc(names: seq<string>, n: string)
    ensures Distinct(names + [n]) <==> Distinct(names) && n !in names
  {
    var longer := names + [n];
    if Distinct(longer) {
      forall i | 0 <= i < |names|
        ensures names[i] != n
      {
        assert longer[i] == names[i] && longer[|names|] == n;
      }
      forall i, j | 0 <= i < j < |names|
        ensures names[i] != names[j]
      {
        assert longer[i] == names[i] && longer[j] == names[j];
      }
    }
    if Distinct(names) && n !in names {
      forall i, j | 0 <= i < j < |longer|
        ensures longer[i] != longer[j]
      {
        assert longer[i] == names[i];
        if j < |names| {
          assert longer[j] == names[j];
        }
      }
    }
  }

  /** `d.get(name)`: the value of the first entry with that name. */
  function Lookup(d: seq<Header>, name: string): (r: Option<string>)
    ensures r.Some? <==> name in Names(d)
    decreases |d|
  {
    if d == [] then None
    else if d[0].0 == name then Some(d[0].1)
    else
      assert Names(d) == [d[0].0] + Names(d[1..]);
      Lookup(d[1..], name)
  }

  /**
   * `d[name] = value`: an existing entry gets the new value and keeps its
   * place; a new name is added at the end.
   */
  function Assign(d: seq<Header>, name: string, value: string): (r: seq<Header>)
    ensures Lookup(r, name) == Some(value)
    decreases |d|
  {
    if d == [] then [(name, value)]
    else if d[0].0 == name then [(name, value)] + d[1..]
    else
      var r := [d[0]] + Assign(d[1..], name, value);
      assert r[1..] == Assign(d[1..], name, value);
      r
  }

  /** A new name is appended at the end. */
  lemma {:induction false} AssignNew(d: seq<Header>, name: string, value: string)
    requires name !in Names(d)
    ensures Assign(d, name, value) == d + [(name, value)]
    decreases |d|
  {
    if d != [] {
      NamesCons(d[0], d[1..]);
      assert d == [d[0]] + d[1..];
      AssignNew(d[1..], name, value);
    }
  }

  /** The names keep their order; a new one goes last. */
  lemma {:induction false} AssignNames(d: seq<Header>, name: string, value: string)
    ensures Names(Assign(d, name, value)) == if name in Names(d) then Names(d) else Names(d) + [name]
    decreases |d|
  {
    if d != [] {
      assert d == [d[0]] + d[1..];
      NamesCons(d[0], d[1..]);
      if d[0].0 == name {
        NamesCons((name, value), d[1..]);
      } else {
        var tail := Assign(d[1..], name, value);
        AssignNames(d[1..], name, value);
        NamesCons(d[0], tail);
      }
    }
  }

  /** Assigning one name leaves the values of all other names alone. */
  lemma {:induction false} AssignKeepsOthers(d: seq<Header>, name: string, value: string, other: string)
    requires other != name
    ensures Lookup(Assign(d, name, value), other) == Lookup(d, other)
    decreases |d|
  {
    if d != [] && d[0].0 != name {
      AssignKeepsOthers(d[1..], name, value, other);
    }
  }

  /**
   * Each name once, in the order of its first occurrence: the order in which
   * a dict lists the keys it was given.
   */
  function FirstOccurrences(names: seq<string>): (r: seq<string>)
    ensures Distinct(r)
    ensures forall n :: n in r <==> n in names
    decreases |names|
  {
    if names == [] then []
    else
      var init := FirstOccurrences(names[..|names| - 1]);
      var n := names[|names| - 1];
      assert forall m :: m in names <==> m in names[..|names| - 1] || m == n by {
        assert names == names[..|names| - 1] + [n];
      }
      DistinctSnoc(init, n);
      if n in init then init else init + [n]
  }

  /** The names first met in a prefix come first, in the same order, whatever follows. */
  lemma {:induction false} FirstOccurrencesPrefix(names: seq<string>, k: nat)
    requires k <= |names|
    ensures FirstOccurrences(names[..k]) <= FirstOccurrences(names)
    decreases |names|
  {
    if k < |names| {
      var init := names[..|names| - 1];
      assert init[..k] == names[..k];
      FirstOccurrencesPrefix(init, k);
    } else {
      assert names[..k] == names;
    }
  }

  /** Assigning keeps the names of a dict distinct. */
  lemma AssignKeepsUnique(d: seq<Header>, name: string, value: string)
    requires UniqueNames(d)
    ensures UniqueNames(Assign(d, name, value))
  {
    AssignNames(d, name, value);
    DistinctSnoc(Names(d), name);
  }

  /**
   * `{k: v for k, v in pairs}`: one entry per name, holding the value of the
   * name's last pair, at the position of its first pair.
   */
  function DictOf(pairs: seq<Header>): (d: seq<Header>)
    ensures UniqueNames(d)
    decreases |pairs|
  {
    if pairs == [] then []
    else
      var last := pairs[|pairs| - 1];
      var init := DictOf(pairs[..|pairs| - 1]);
      AssignKeepsUnique(init, last.0, last.1);
      Assign(init, last.0, last.1)
  }

  /** The value of the last pair with this name, if any. */
  function LastValue(pairs: seq<Header>, name: string): Option<string>
    decreases |pairs|
  {
    if pairs == [] then None
    else if pairs[|pairs| - 1].0 == name then Some(pairs[|pairs| - 1].1)
    else LastValue(pairs[..|pairs| - 1], name)
  }

  /** The dict maps each name to the value of its last pair. */
  lemma {:induction false} DictOfLookup(pairs: seq<Header>, name: string)
    ensures Lookup(DictOf(pairs), name) == LastValue(pairs, name)
    decreases |pairs|
  {
    if pairs != [] {
      var last := pairs[|pairs| - 1];
      DictOfLookup(pairs[..|pairs| - 1], name);
      if last.0 != name {
        AssignKeepsOthers(DictOf(pairs[..|pairs| - 1]), last.0, last.1, name);
      }
    }
  }

  /** The dict has exactly the names of the pairs. */
  lemma {:induction false} DictOfNames(pairs: seq<Header>, name: string)
    ensures name in Names(DictOf(pairs)) <==> name in Names(pairs)
    decreases |pairs|
  {
    if pairs != [] {
      var init := pairs[..|pairs| - 1];
      assert pairs == init + [pairs[|pairs| - 1]];
      NamesSnoc(init, pairs[|pairs| - 1]);
      AssignNames(DictOf(init), pairs[|pairs| - 1].0, pairs[|pairs| - 1].1);
      DictOfNames(init, name);
    }
  }

  /** The dict lists each name at the position of its first pair. */
  lemma {:induction false} DictOfOrder(pairs: seq<Header>)
    ensures Names(DictOf(pairs)) == FirstOccurrences(Names(pairs))
    decreases |pairs|
  {
    if pairs != [] {
      var init := pairs[..|pairs| - 1];
      var last := pairs[|pairs| - 1];
      assert pairs == init + [last];
      NamesSnoc(init, last);
      assert Names(pairs)[..|Names(pairs)| - 1] == Names(init);
      DictOfOrder(init);
      AssignNames(DictOf(init), last.0, last.1);
    }
  }

  /** A repeated name takes its last value but keeps its first position. */
  lemma DictOfExample()
    ensures DictOf([("a", "1"), ("b", "2"), ("a", "3")]) == [("a", "3"), ("b", "2")]
  {
    var pairs := [("a", "1"), ("b", "2"), ("a", "3")];
    assert pairs[..2] == [("a", "1"), ("b", "2")];
    assert pairs[..2][..1] == [("a", "1")];
    assert DictOf(pairs[..2][..1]) == [("a", "1")];
    AssignNew([("a", "1")], "b", "2");
    var two := [("a", "1"), ("b", "2")];
    assert DictOf(pairs[..2]) == two;
    assert Assign(two, "a", "3") == [("a", "3")] + two[1..];
  }

  /** Pairs with distinct names are already a dict: nothing collapses and the order stays. */
  lemma {:induction false} DictOfDistinct(pairs: seq<Header>)
    requires UniqueNames(pairs)
    ensures DictOf(pairs) == pairs
    decreases |pairs|
  {
    if pairs != [] {
      var init := pairs[..|pairs| - 1];
      var last := pairs[|pairs| - 1];
      assert init + [last] == pairs;
      NamesSnoc(init, last);
      DistinctSnoc(Names(init), last.0);
      DictOfDistinct(init);
      AssignNew(init, last.0, last.1);
    }
  }

  // ---------------------------------------------------------------------------
  // The whole comprehension

  /** The header dict sent upstream. */
  function ForwardedHeaders(headers: seq<Header>): (forwarded: seq<Header>)
    ensures UniqueNames(forwarded)
  {
    DictOf(FilterHopByHop(headers))
  }

  lemma {:induction false} LastValueFiltered(headers: seq<Header>, name: string)
    ensures LastValue(FilterHopByHop(headers), name) == if IsHopByHop(name) then None else LastValue(headers, name)
    decreases |headers|
  {
    if headers != [] {
      var init := headers[..|headers| - 1];
      var last := headers[|headers| - 1];
      assert headers == init + [last];
      FilterAppend(init, [last]);
      assert FilterHopByHop([last]) == if IsHopByHop(last.0) then [] else [last];
      var kept := FilterHopByHop(init);
      if !IsHopByHop(last.0) {
        assert (kept + [last])[..|kept|] == kept;
      } else {
        assert kept + [] == kept;
      }
      LastValueFiltered(init, name);
    }
  }

  /**
   * Soundness and completeness at once: a hop-by-hop name is never sent, and
   * every other name of the inbound headers is sent with its (last) value.
   */
  lemma ForwardedHeadersLookup(headers: seq<Header>, name: string)
    ensures Lookup(ForwardedHeaders(headers), name) == if IsHopByHop(name) then None else LastValue(headers, name)
  {
    DictOfLookup(FilterHopByHop(headers), name);
    LastValueFiltered(headers, name);
  }

  /** No entry of the forwarded dict has a hop-by-hop name. */
  lemma ForwardedHeadersSound(headers: seq<Header>)
    ensures forall h :: h in ForwardedHeaders(headers) ==> !IsHopByHop(h.0)
  {
    var forwarded := ForwardedHeaders(headers);
    forall h | h in forwarded
      ensures !IsHopByHop(h.0)
    {
      var i :| 0 <= i < |forwarded| && forwarded[i] == h;
      assert Names(forwarded)[i] == h.0;
      ForwardedHeadersLookup(headers, h.0);
    }
  }

  /** Forwarding an already forwarded header dict changes nothing. */
  lemma ForwardedHeadersIdempotent(headers: seq<Header>)
    ensures ForwardedHeaders(ForwardedHeaders(headers)) == ForwardedHeaders(headers)
  {
    var forwarded := ForwardedHeaders(headers);
    ForwardedHeadersSound(headers);
    FilterKeepsClean(forwarded);
    DictOfDistinct(forwarded);
  }

  lemma {:induction false} FilterKeepsUniqueNames(headers: seq<Header>)
    requires UniqueNames(headers)
    ensures UniqueNames(FilterHopByHop(headers))
    decreases |headers|
  {
    if headers != [] {
      var rest := headers[1..];
      var kept := FilterHopByHop(rest);
      FilterKeepsUniqueNames(rest);
      if !IsHopByHop(headers[0].0) {
        forall i | 0 <= i < |kept|
          ensures kept[i].0 != headers[0].0
        {
          assert kept[i] in rest;
          var j :| 0 <= j < |rest| && rest[j] == kept[i];
          assert headers[j + 1] == rest[j];
        }
      }
    }
  }

  /**
   * When the inbound names are distinct, the dict is exactly the filtered
   * headers: the original order is kept and no value is lost.
   */
  lemma ForwardedHeadersOfDistinct(headers: seq<Header>)
    requires UniqueNames(headers)
    ensures ForwardedHeaders(headers) == FilterHopByHop(headers)
  {
    FilterKeepsUniqueNames(headers);
    DictOfDistinct(FilterHopByHop(headers));
  }
}
