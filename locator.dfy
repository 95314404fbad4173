/** `_XPath.__call__` of hmdriver2/_xpath.py: one capture of the screen,
    one query over the normalised tree, and an element handle bound to the
    first match or left unbound. The XPath evaluator (lxml) and
    `parse_bounds` are collaborators and are passed in as functions. */
module Locator {

  import opened Wrappers
  import opened Proto
  import opened PyStr
  import opened Hierarchy
  import opened Normalizer
  import opened DeviceDriver
  import opened XmlElement

  /** Why `__call__` raises: the `RuntimeError("hierarchy is empty")` it
      raises itself, or an exception from the XPath evaluator or from
      `parse_bounds` that it lets through. */
  datatype LocateError = EmptyHierarchy | QueryRaised | BoundsRaised

  /** An XPath evaluator: the matches of an expression in a tree, in
      document order, or an exception. The exception also stands for a
      result that is not a node-set and makes `len(result)` or
      `result[0].attrib` raise. */
  type Evaluator = (string, Node) -> Result<seq<Node>, Raised>

  /** What `__call__` hands the new element: its bounds, attributes and
      matched node. */
  datatype Binding = Binding(bounds: Option<Bounds>, attrib: map<string, string>, node: Option<Node>)

  /** The selection rule of `__call__`: bind to the first match, with bounds
      parsed from its `bounds` attribute; with no match, bind nothing and do
      not consult the parser. */
  function Select(result: seq<Node>, parse: BoundsParser): (r: Result<Binding, LocateError>)
    ensures result == [] ==> r == Success(Binding(None, map[], None))
    ensures result != [] && parse(Lookup(result[0].attrib, "bounds")).Failure? ==>
              r == Failure(BoundsRaised)
    ensures result != [] && parse(Lookup(result[0].attrib, "bounds")).Success? ==>
              r == Success(Binding(parse(Lookup(result[0].attrib, "bounds")).value,
                                   result[0].attrib, Some(result[0])))
  {
    if |result| > 0 then
      var node := result[0];
      match parse(Lookup(node.attrib, "bounds"))
      case Failure(_) => Failure(BoundsRaised)
      case Success(bounds) => Success(Binding(bounds, node.attrib, Some(node)))
    else
      Success(Binding(None, map[], None))
  }

  /** Only the first match matters: two results that agree on it select
      the same binding, whatever follows. */
  lemma {:induction false} SelectDependsOnFirstOnly(r1: seq<Node>, r2: seq<Node>, parse: BoundsParser)
    requires r1 != [] && r2 != [] && r1[0] == r2[0]
    ensures Select(r1, parse) == Select(r2, parse)
  {
  }

  /** `__call__` as a function of the captured dump: an empty dump fails;
      otherwise the query runs on the normalised tree, its exception passes
      through, and its result is selected. */
  function Resolve(dump: Option<Snapshot>, xpath: string, eval: Evaluator, parse: BoundsParser)
    : (r: Result<Binding, LocateError>)
    ensures r == Failure(EmptyHierarchy) <==> IsFalsy(dump)
    ensures !IsFalsy(dump) && eval(xpath, Normalize(dump.value)).Failure? ==>
              r == Failure(QueryRaised)
    ensures !IsFalsy(dump) && eval(xpath, Normalize(dump.value)).Success? ==>
              r == Select(eval(xpath, Normalize(dump.value)).value, parse)
  {
    if IsFalsy(dump) then Failure(EmptyHierarchy)
    else
      match eval(xpath, Normalize(dump.value))
      case Failure(_) => Failure(QueryRaised)
      case Success(result) => Select(result, parse)
  }

  /** When the evaluator returns a node-set whose first match lies in the
      tree it was given, the element is bound to a well-formed node: every
      attribute it receives is free of control characters and the node has
      no text of its own. Only `parse_bounds` can still raise. */
  lemma {:induction false} ResolveBindsWellFormed(dump: Option<Snapshot>, xpath: string, eval: Evaluator, parse: BoundsParser)
    requires !IsFalsy(dump)
    requires eval(xpath, Normalize(dump.value)).Success?
    requires eval(xpath, Normalize(dump.value)).value != [] ==>
               InTree(eval(xpath, Normalize(dump.value)).value[0], Normalize(dump.value))
    ensures Resolve(dump, xpath, eval, parse).Success? || Resolve(dump, xpath, eval, parse) == Failure(BoundsRaised)
    ensures Resolve(dump, xpath, eval, parse).Success? ==>
              var b := Resolve(dump, xpath, eval, parse).value;
              && AllClean(b.attrib)
              && (b.node.Some? ==> WellFormed(b.node.value))
  {
    var root := Normalize(dump.value);
    var result := eval(xpath, root).value;
    if result != [] {
      NormalizeWellFormed(dump.value);
      InTreeWellFormed(result[0], root);
    }
  }

  /** An element bound to a node `_json2xml` built takes its text from the
      `text` attribute alone: the node-text fallback of `get_text` yields "". */
  lemma LocatedTextComesFromAttribute(e: Element)
    requires e.xmlNode.Some? ==> WellFormed(e.xmlNode.value)
    ensures e.GetText() == if e.Exists() then Strip(Lookup(e.attribInfo, "text").GetOr("")) else ""
  {
  }

  /** `_XPath`: the locator, holding the driver and the collaborators it
      consults. */
  class XPath {
    const d: Driver
    const evaluate: Evaluator
    const parseBounds: BoundsParser
    const getCenter: CenterOf
    /** Every expression handed to the evaluator so far, oldest first. */
    ghost var queries: seq<string>

    constructor (d: Driver, evaluate: Evaluator, parseBounds: BoundsParser, getCenter: CenterOf)
      ensures this.d == d && this.evaluate == evaluate
      ensures this.parseBounds == parseBounds && this.getCenter == getCenter
      ensures queries == []
    {
      this.d := d;
      this.evaluate := evaluate;
      this.parseBounds := parseBounds;
      this.getCenter := getCenter;
      queries := [];
    }

    /** `__call__`: captures the screen once; fails on an empty capture
        before any query runs; otherwise evaluates `xpath` once and either
        passes on the evaluator's or the parser's exception or returns a
        fresh element, bound as `Resolve` says, with an empty centre cache. */
    method Locate(xpath: string) returns (r: Result<Element, LocateError>)
      modifies this`queries, d`log
      ensures d.log == old(d.log) + [Call.DumpHierarchy]
      ensures IsFalsy(d.screen) ==> queries == old(queries)
      ensures !IsFalsy(d.screen) ==> queries == old(queries) + [xpath]
      ensures r.Failure? ==> Resolve(d.screen, xpath, evaluate, parseBounds) == Failure(r.error)
      ensures r.Success? ==>
                && fresh(r.value) && r.value.Valid()
                && r.value.d == d && r.value.getCenter == getCenter
                && r.value.cachedCenter.None?
                && Resolve(d.screen, xpath, evaluate, parseBounds)
                   == Success(Binding(r.value.bounds, r.value.attribInfo, r.value.xmlNode))
    {
      var hierarchy := d.DumpHierarchy();
      if IsFalsy(hierarchy) {
        return Failure(EmptyHierarchy);
      }
      var xml := Json2Xml(hierarchy.value);
      queries := queries + [xpath];
      var outcome := evaluate(xpath, xml);
      if outcome.Failure? {
        return Failure(QueryRaised);
      }
      var result := outcome.value;
      if |result| > 0 {
        var node := result[0];
        var rawBounds := Lookup(node.attrib, "bounds");
        var parsed := parseBounds(rawBounds);
        if parsed.Failure? {
          return Failure(BoundsRaised);
        }
        var xe := new Element(parsed.value, d, getCenter);
        xe.attribInfo := node.attrib;
        xe.xmlNode := Some(node);
        return Success(xe);
      }
      var xe := new Element(None, d, getCenter);
      return Success(xe);
    }
  }
}
