/** The hierarchy normaliser of hmdriver2/_xpath.py: `_XPath._sanitize_text`
    and `_XPath._json2xml`, which turn the driver's snapshot into a tree
    whose attribute values hold no XML-illegal control characters. */
module Normalizer {

  import opened Wrappers
  import opened PyStr
  import opened Hierarchy

  /** The characters `_sanitize_text` removes: the class `[\x00-\x1F\x7F]`,
      that is the 33 code points below U+0020 and U+007F. */
  predicate IsControl(c: char)
    ensures IsControl(c) <==> c as int < 0x20 || c as int == 0x7F
  {
    '\U{0}' <= c <= '\U{1F}' || c == '\U{7F}'
  }

  predicate IsClean(s: string) {
    forall k :: 0 <= k < |s| ==> !IsControl(s[k])
  }

  /** `r` is `s` with some characters left out, the rest kept in order. */
  ghost predicate IsSubsequence(r: string, s: string)
    decreases |s|
  {
    if r == [] then true
    else if s == [] then false
    else (r[0] == s[0] && IsSubsequence(r[1..], s[1..])) || IsSubsequence(r, s[1..])
  }

  /** `_sanitize_text`: the string with every control character removed. */
  function Sanitize(s: string): (r: string)
    ensures IsClean(r)
    ensures |r| <= |s|
  {
    if s == [] then []
    else if IsControl(s[0]) then Sanitize(s[1..])
    else [s[0]] + Sanitize(s[1..])
  }

  /** `Sanitize` removes exactly the control characters: what it returns
      is a subsequence of its input (order kept) that holds every
      non-control character of the input as often as the input does. */
  lemma {:induction false} SanitizeKeepsOthers(s: string)
    ensures IsSubsequence(Sanitize(s), s)
    ensures forall c :: !IsControl(c) ==> multiset(Sanitize(s))[c] == multiset(s)[c]
  {
    if s != [] {
      assert s == [s[0]] + s[1..];
      SanitizeKeepsOthers(s[1..]);
      if !IsControl(s[0]) {
        var r := Sanitize(s);
        assert r == [s[0]] + Sanitize(s[1..]);
        assert r[1..] == Sanitize(s[1..]);
      }
    }
  }

  /** A subsequence uses no character more often than the whole does. */
  lemma {:induction false} SubsequenceMultiset(r: string, s: string)
    requires IsSubsequence(r, s)
    ensures multiset(r) <= multiset(s)
    decreases |s|
  {
    if r != [] {
      assert s == [s[0]] + s[1..];
      if r[0] == s[0] && IsSubsequence(r[1..], s[1..]) {
        assert r == [r[0]] + r[1..];
        SubsequenceMultiset(r[1..], s[1..]);
      } else {
        SubsequenceMultiset(r, s[1..]);
      }
    }
  }

  /** The properties of `SanitizeKeepsOthers` and `Sanitize` determine the result:
      any clean subsequence of `s` that keeps every non-control character
      of `s` is `Sanitize(s)`. */
  lemma {:induction false} SanitizeUnique(s: string, r: string)
    requires IsClean(r) && IsSubsequence(r, s)
    requires forall c :: !IsControl(c) ==> multiset(r)[c] == multiset(s)[c]
    ensures r == Sanitize(s)
    decreases |s|
  {
    if s != [] {
      var t := s[1..];
      assert s == [s[0]] + t;
      if IsControl(s[0]) {
        if r != [] {
          assert r[0] != s[0];
        }
        SanitizeUnique(t, r);
      } else if r != [] && r[0] == s[0] && IsSubsequence(r[1..], t) {
        assert r == [r[0]] + r[1..];
        SanitizeUnique(t, r[1..]);
      } else {
        assert IsSubsequence(r, t);
        SubsequenceMultiset(r, t);
        assert false;
      }
    }
  }

  /** A string without control characters is left unchanged. */
  lemma {:induction false} SanitizeCleanIdentity(s: string)
    requires IsClean(s)
    ensures Sanitize(s) == s
  {
    if s != [] {
      SanitizeCleanIdentity(s[1..]);
    }
  }

  /** `Sanitize(s) == s` exactly when `s` holds no control character. */
  lemma SanitizeFixpointIff(s: string)
    ensures Sanitize(s) == s <==> IsClean(s)
  {
  }

  /** Sanitising twice is sanitising once. */
  lemma {:induction false} SanitizeIdempotent(s: string)
    ensures Sanitize(Sanitize(s)) == Sanitize(s)
  {
    SanitizeCleanIdentity(Sanitize(s));
  }

  /** Sanitising works character by character: it distributes over
      concatenation. */
  lemma {:induction false} SanitizeConcat(a: string, b: string)
    ensures Sanitize(a + b) == Sanitize(a) + Sanitize(b)
  {
    if a == [] {
      assert a + b == b;
    } else {
      assert (a + b)[0] == a[0];
      assert (a + b)[1..] == a[1..] + b;
      SanitizeConcat(a[1..], b);
    }
  }

  /** The text `str()` gives a number, a boolean or `None` holds no control
      character, so sanitising keeps it as it is. */
  lemma NonStringTextUnchanged(v: Scalar)
    requires !v.Str?
    ensures Sanitize(ToText(v)) == ToText(v)
  {
    SanitizeCleanIdentity(ToText(v));
  }

  predicate AllClean(attrib: map<string, string>) {
    forall k :: k in attrib ==> IsClean(attrib[k])
  }

  /** The dict comprehension of `_json2xml`: the same keys, each value
      `_sanitize_text(str(v))`. */
  function CleanAttributes(attrs: map<string, Scalar>): (r: map<string, string>)
    ensures r.Keys == attrs.Keys
    ensures forall k :: k in r ==> r[k] == Sanitize(ToText(attrs[k]))
    ensures AllClean(r)
  {
    map k | k in attrs :: Sanitize(ToText(attrs[k]))
  }

  /** The tag used when a node has no usable `type`. */
  const RootTag: string := "orgRoot"

  /** `cleaned_attributes.get("type", "orgRoot") or "orgRoot"`. */
  function TagOf(attrib: map<string, string>): (tag: string)
    ensures "type" in attrib && attrib["type"] != "" ==> tag == attrib["type"]
    ensures !("type" in attrib && attrib["type"] != "") ==> tag == RootTag
  {
    var t := Lookup(attrib, "type").GetOr(RootTag);
    if t == "" then RootTag else t
  }

  /** What every node `_json2xml` builds satisfies, at every depth: clean
      attribute values, the tag derived from them, no text of its own. */
  ghost predicate WellFormed(n: Node)
    decreases n
  {
    && AllClean(n.attrib)
    && n.tag == TagOf(n.attrib)
    && IsClean(n.tag)
    && n.text.None?
    && forall i :: 0 <= i < |n.children| ==> WellFormed(n.children[i])
  }

  /** The tree `_json2xml` returns, as a value. */
  function Normalize(h: Snapshot): (r: Node)
    ensures |r.children| == |ChildrenOf(h)|
    decreases h
  {
    var kids := ChildrenOf(h);
    var attrib := CleanAttributes(AttributesOf(h));
    Node(TagOf(attrib), attrib, None,
         seq(|kids|, i requires 0 <= i < |kids| => Normalize(kids[i])))
  }

  /** Every tree `_json2xml` builds is well formed: no control character in
      any attribute value or tag, at any depth. */
  lemma {:induction false} NormalizeWellFormed(h: Snapshot)
    ensures WellFormed(Normalize(h))
    decreases h
  {
    var kids := ChildrenOf(h);
    forall i | 0 <= i < |kids|
      ensures WellFormed(Normalize(h).children[i])
    {
      NormalizeWellFormed(kids[i]);
    }
  }

  /** `_json2xml`: builds the node from the cleaned attributes, then appends
      the normalised children one by one in their original order. */
  method Json2Xml(h: Snapshot) returns (xml: Node)
    ensures xml == Normalize(h)
    decreases h
  {
    var attributes := AttributesOf(h);
    var cleaned := CleanAttributes(attributes);
    var tag := TagOf(cleaned);
    var children := ChildrenOf(h);
    var built: seq<Node> := [];
    for i := 0 to |children|
      invariant |built| == i
      invariant forall j :: 0 <= j < i ==> built[j] == Normalize(children[j])
    {
      var child := Json2Xml(children[i]);
      built := built + [child];
    }
    assert built == Normalize(h).children;
    xml := Node(tag, cleaned, None, built);
  }

  /** Node by node, the normalised tree mirrors the snapshot: a child path
      exists in one exactly when it exists in the other, and the node found
      there carries that snapshot's keys with sanitised values, its tag, and
      the same number of children in the same order. */
  lemma {:induction false} NormalizeAt(h: Snapshot, path: seq<nat>)
    ensures NodeAt(Normalize(h), path).Some? <==> SnapshotAt(h, path).Some?
    ensures SnapshotAt(h, path).Some? ==>
      var s := SnapshotAt(h, path).value;
      var n := NodeAt(Normalize(h), path).value;
      && n == Normalize(s)
      && n.attrib.Keys == AttributesOf(s).Keys
      && (forall k :: k in n.attrib ==> n.attrib[k] == Sanitize(ToText(AttributesOf(s)[k])))
      && n.tag == TagOf(n.attrib)
      && |n.children| == |ChildrenOf(s)|
    decreases |path|
  {
    if path != [] && path[0] < |ChildrenOf(h)| {
      NormalizeAt(ChildrenOf(h)[path[0]], path[1..]);
    }
  }

  /** Every element below a normalised root is itself well formed. */
  lemma {:induction false} InTreeWellFormed(m: Node, root: Node)
    requires WellFormed(root) && InTree(m, root)
    ensures WellFormed(m)
    decreases root
  {
    if m != root {
      var i :| 0 <= i < |root.children| && InTree(m, root.children[i]);
      InTreeWellFormed(m, root.children[i]);
    }
  }

  /** The snapshot a tree would be dumped as: every attribute a string,
      every child listed. */
  function Resnapshot(n: Node): (h: Snapshot)
    ensures |ChildrenOf(h)| == |n.children|
    decreases n
  {
    Snapshot(Some(map k | k in n.attrib :: Str(n.attrib[k])),
             Present(seq(|n.children|, i requires 0 <= i < |n.children| => Resnapshot(n.children[i]))),
             0)
  }

  /** Normalising the dump of a well-formed tree gives back that tree. */
  lemma {:induction false} NormalizeResnapshot(n: Node)
    requires WellFormed(n)
    ensures Normalize(Resnapshot(n)) == n
    decreases n
  {
    var h := Resnapshot(n);
    var r := Normalize(h);
    forall k | k in n.attrib
      ensures Sanitize(ToText(AttributesOf(h)[k])) == n.attrib[k]
    {
      SanitizeCleanIdentity(n.attrib[k]);
    }
    assert r.attrib == n.attrib;
    forall i | 0 <= i < |n.children|
      ensures r.children[i] == n.children[i]
    {
      NormalizeResnapshot(n.children[i]);
    }
  }

  /** Normalisation is idempotent: the dump of a normalised tree normalises
      to the same tree. */
  lemma {:induction false} NormalizeIdempotent(h: Snapshot)
    ensures Normalize(Resnapshot(Normalize(h))) == Normalize(h)
  {
    NormalizeWellFormed(h);
    NormalizeResnapshot(Normalize(h));
  }
}
