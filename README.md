# hmdriver2 XPath locator: a Dafny model

This project models the XPath locator of hmdriver2, a UI-automation client
for HarmonyOS devices (`hmdriver2/_xpath.py`). It covers three pieces.

- **Hierarchy normaliser.** The driver dumps the screen as nested
  `{attributes, children}` dictionaries. `_sanitize_text` and `_json2xml`
  turn that dump into an element tree:
  - every attribute value is coerced with `str()` and stripped of the control
    characters U+0000 to U+001F and U+007F;
  - the tag is the cleaned `type` attribute, or `orgRoot` when that is
    missing or empty;
  - children are converted recursively, in their original order.
- **Locator.** `_XPath.__call__` captures the screen once and raises on an
  empty capture. Otherwise it runs the query over the normalised tree, binds
  a new element to the first match, and leaves the element unbound when
  nothing matches.
- **Element handle.** `_XMLElement` is bound when it has bounds and unbound
  otherwise. It offers:
  - `exists()`;
  - a `center` that is computed once and then cached;
  - `get_text()`, which tries the `text` attribute, then the node's own text,
    then gives `""`;
  - `info` and `text`;
  - tap and text-entry actions. On an unbound element every action except
    `click_if_exists` raises before contacting the device, and
    `click_if_exists` returns without contacting it. On a bound element each
    tap sends exactly one request, and `input_text` sends a tap followed by
    the text entry.

Files and modules:

| file | module | contents |
|---|---|---|
| wrappers.dfy | `Wrappers` | `Option`, `Result` and `Outcome`. They stand for `None` and for the exceptions raised. |
| proto.dfy | `Proto` | `Bounds`, `Point`, and the types of the `parse_bounds` and `get_center` collaborators. |
| pystr.dfy | `PyStr` | Python's `str()` on JSON scalars and `str.strip()`. |
| hierarchy.dfy | `Hierarchy` | The dump (`Snapshot`) and the element tree (`Node`). |
| normalizer.dfy | `Normalizer` | `_sanitize_text` and `_json2xml`, with their properties. |
| driver.dfy | `DeviceDriver` | The driver as a ghost log of device requests. |
| element.dfy | `XmlElement` | `_XMLElement` as a class. |
| locator.dfy | `Locator` | `_XPath` as a class, plus the selection rule as functions. |

Collaborators are modelled as follows.

- **Device I/O.** A `Driver` object takes the place of the device.
  `dump_hierarchy` returns the driver's `screen` field, which is an input of
  the model. Every request is appended to the ghost `log`. This is what lets
  contracts say "no request was sent" and "tap, then type".
- **XPath evaluation, `parse_bounds` and `Bounds.get_center`.** These are not
  part of this model. They are function-valued fields of the locator and the
  element (`Evaluator`, `BoundsParser`, `CenterOf`).
  - The evaluator returns either a node list in document order or an exception.
  - `parse_bounds` returns either an optional rectangle or an exception.
  - `__call__` passes either exception on unchanged.
  - Each of them is treated as a deterministic function of its arguments.
  - No midpoint formula is assumed for the centre.
- **The element tree.** It is a value (`Node`). lxml's checks on names and values are not modelled (see "## Left out"). `_json2xml` appends children
  to a mutable lxml element as it goes. `Json2Xml` does the same with a loop
  that appends to a sequence, and then builds the node from it.

## Model

| member | source | states |
|---|---|---|
| `Normalizer.Sanitize` | hmdriver2/_xpath.py:40-43 | Its output contains no character in U+0000–U+001F or U+007F and is never longer than its input. |
| `Normalizer.SanitizeKeepsOthers` | hmdriver2/_xpath.py:41-43 | The output is a subsequence of the input, so order is kept. Every non-control character appears in the output exactly as often as in the input. |
| `Normalizer.SubsequenceMultiset` | hmdriver2/_xpath.py:41-43 | A subsequence never uses a character more often than the whole string does. This supports the uniqueness proof. |
| `Normalizer.SanitizeUnique` | hmdriver2/_xpath.py:41-43 | Any clean subsequence of `s` that keeps every non-control character of `s` equals `Sanitize(s)`. So the filter removes exactly the control characters. |
| `Normalizer.SanitizeCleanIdentity` | hmdriver2/_xpath.py:41-43 | A string with no control character is returned unchanged. |
| `Normalizer.SanitizeFixpointIff` | hmdriver2/_xpath.py:41-43 | `Sanitize(s) == s` holds exactly when `s` has no control character. |
| `Normalizer.SanitizeIdempotent` | hmdriver2/_xpath.py:41-43 | Sanitising twice gives the same result as sanitising once. |
| `Normalizer.SanitizeConcat` | hmdriver2/_xpath.py:41-43 | Sanitising a concatenation equals concatenating the sanitised parts, so the filter works character by character. |
| `Normalizer.NonStringTextUnchanged` | hmdriver2/_xpath.py:51 | `str()` of an integer, a boolean or null contains no control character, so sanitising leaves it as it is. |
| `Normalizer.CleanAttributes` | hmdriver2/_xpath.py:48-51 | The cleaned attributes have the same keys as the input. Each value is `_sanitize_text(str(v))`, and every value is clean. |
| `Normalizer.TagOf` | hmdriver2/_xpath.py:53 | The tag is the cleaned `type` value when that is present and non-empty. Otherwise it is `"orgRoot"`. |
| `Normalizer.Normalize` | hmdriver2/_xpath.py:45-60 | The output node has exactly as many children as the snapshot's `children` entry. A missing key gives zero children. |
| `Normalizer.NormalizeWellFormed` | hmdriver2/_xpath.py:45-60 | At every depth of the output: all attribute values and the tag are clean, the tag is derived from the node's own attributes, and the node has no text. |
| `Normalizer.Json2Xml` | hmdriver2/_xpath.py:46-60 | The loop that appends each converted child in order returns exactly the tree `Normalize` describes. |
| `Normalizer.NormalizeAt` | hmdriver2/_xpath.py:48-60 | A child-index path exists in the output exactly when it exists in the snapshot. The node found there has the snapshot node's keys, each with the sanitised `str()` value. It also has the derived tag and the same number of children, so shape and order are kept at every depth. |
| `Normalizer.InTreeWellFormed` | hmdriver2/_xpath.py:45-60 | Every node inside a well-formed tree is itself well formed. |
| `Normalizer.NormalizeResnapshot` | hmdriver2/_xpath.py:48-60 | Normalising the dump of a well-formed tree gives back that same tree. |
| `Normalizer.NormalizeIdempotent` | hmdriver2/_xpath.py:45-60 | Normalising an already normalised tree, re-dumped, returns it unchanged. |
| `PyStr.NatToText` | hmdriver2/_xpath.py:51 | `str(n)` for a natural number is a non-empty run of decimal digits with no leading zero. |
| `PyStr.IntToText` | hmdriver2/_xpath.py:51 | `str(i)` is the digits for `i >= 0`. For a negative `i` it is `-` followed by the digits. |
| `PyStr.NatToTextRoundTrip` | hmdriver2/_xpath.py:51 | The decimal text of `n` reads back as `n`. |
| `PyStr.IntToTextRoundTrip` | hmdriver2/_xpath.py:51 | `str(i)` reads back as `i`, sign included, so no two integers share a text. |
| `PyStr.TrimStart` | hmdriver2/_xpath.py:94 | The result is a suffix of the input. Everything dropped is whitespace, and the result does not start with whitespace. |
| `PyStr.TrimEnd` | hmdriver2/_xpath.py:94 | The result is a prefix of the input. Everything dropped is whitespace, and the result does not end with whitespace. |
| `PyStr.Strip` | hmdriver2/_xpath.py:94 | The result is a slice `s[i..j]` with only whitespace outside it. It neither starts nor ends with whitespace. |
| `PyStr.StripIdempotent` | hmdriver2/_xpath.py:102 | Stripping twice gives the same result as stripping once. |
| `PyStr.StripEmptyIff` | hmdriver2/_xpath.py:94-95 | A string strips to `""` exactly when it is all whitespace. In that case `get_text` falls through to its next tier. |
| `PyStr.ToText` | hmdriver2/_xpath.py:51 | `str(v)`: a string is itself. An integer, boolean or null gives a non-empty text of visible ASCII characters. |
| `PyStr.IsSpace` | hmdriver2/_xpath.py:94 | The whitespace set of `str.strip()`. It includes the space character and no visible ASCII character. |
| `Normalizer.IsControl` | hmdriver2/_xpath.py:43 | The regex class `[\x00-\x1F\x7F]`: exactly the code points below U+0020, plus U+007F. |
| `Hierarchy.AttributesOf` | hmdriver2/_xpath.py:48 | `hierarchy.get("attributes", {})`: the attribute map when the key is present, `{}` otherwise. |
| `Hierarchy.IsFalsy` | hmdriver2/_xpath.py:22 | `not hierarchy` holds exactly for `None` and for the empty dictionary. |
| `Hierarchy.ChildrenOf` | hmdriver2/_xpath.py:56 | `hierarchy.get("children", [])`: a missing `children` key gives no children, a present one gives exactly its list, and every child listed is smaller than its parent. |
| `Hierarchy.Lookup` | hmdriver2/_xpath.py:30 | `attrib.get(key)` is present exactly when the key is, and then it is that key's value. |
| `DeviceDriver.Driver.constructor` | hmdriver2/_xpath.py:10 | Stand-in for a connected device, the `Driver` collaborator imported here: a fresh driver reports the given screen and has sent no request. |
| `DeviceDriver.Driver.DumpHierarchy` | hmdriver2/_xpath.py:21 | Returns the current screen and logs one capture request. |
| `DeviceDriver.Driver.Click` | hmdriver2/_xpath.py:119 | Logs one tap at `(x, y)`. |
| `DeviceDriver.Driver.DoubleClick` | hmdriver2/_xpath.py:134 | Logs one double tap at `(x, y)`. |
| `DeviceDriver.Driver.LongClick` | hmdriver2/_xpath.py:139 | Logs one long press at `(x, y)`. |
| `DeviceDriver.Driver.InputText` | hmdriver2/_xpath.py:144 | Logs one text-entry request for `text`. |
| `XmlElement.Element.constructor` | hmdriver2/_xpath.py:64-68 | A new element holds the given bounds and driver, no attributes, no node and an empty centre cache. |
| `XmlElement.Element.Verify` | hmdriver2/_xpath.py:70-72 | Passes exactly when bounds are present. Otherwise it raises `XmlElementNotFoundError`. |
| `XmlElement.Element.Exists` | hmdriver2/_xpath.py:79-80 | True exactly when bounds are present, which is exactly when `_verify` passes. |
| `XmlElement.Element.Center` | hmdriver2/_xpath.py:74-77 | Raises on an unbound element and leaves the cache unchanged. Otherwise it returns `get_center(bounds)` and stores it. Once the cache is filled, the read returns the cached value and leaves the cache as it is. |
| `XmlElement.Element.GetText` | hmdriver2/_xpath.py:82-106 | Returns `""` on an unbound element. Otherwise: the stripped `text` attribute if that is non-empty, else the node's own stripped text with `None` read as `""`, else `""`. The result never starts or ends with whitespace. |
| `XmlElement.Element.Info` | hmdriver2/_xpath.py:146-153 | Returns the stored attribute map. |
| `XmlElement.Element.Text` | hmdriver2/_xpath.py:155-158 | The effective `text` property: the raw `text` entry of `info`, or nothing when that entry is absent. |
| `XmlElement.Element.Click` | hmdriver2/_xpath.py:116-119 | Unbound: raises, sends no request and leaves the cache unchanged. Bound: sends exactly one tap at the centre and leaves the centre cached. |
| `XmlElement.Element.ClickIfExists` | hmdriver2/_xpath.py:121-129 | Unbound: returns normally, sends no request and leaves the cache unchanged. Bound: sends exactly one tap at the centre and leaves the centre cached. |
| `XmlElement.Element.DoubleClick` | hmdriver2/_xpath.py:131-134 | Unbound: raises, sends no request and leaves the cache unchanged. Bound: sends exactly one double tap at the centre and leaves the centre cached. |
| `XmlElement.Element.LongClick` | hmdriver2/_xpath.py:136-139 | Unbound: raises, sends no request and leaves the cache unchanged. Bound: sends exactly one long press at the centre and leaves the centre cached. |
| `XmlElement.Element.InputText` | hmdriver2/_xpath.py:141-144 | Unbound: raises at the tap, never types and leaves the cache unchanged. Bound: sends a tap at the centre, then the text-entry request, in that order and nothing else, and leaves the centre cached. |
| `XmlElement.TextOverrideDiffersFromGetText` | hmdriver2/_xpath.py:108-114 | For `text = " Hi "` the effective `text` gives `" Hi "`, where `get_text()` gives `"Hi"`. On an unbound element it gives nothing, where `get_text()` gives `""`. |
| `Locator.Select` | hmdriver2/_xpath.py:28-38 | No match gives no bounds, `{}` and no node, and the parser is not consulted. Otherwise the binding is to `result[0]`: its attributes, its node, and `parse_bounds` of its `bounds` attribute. An exception from `parse_bounds` passes through. |
| `Locator.SelectDependsOnFirstOnly` | hmdriver2/_xpath.py:28-29 | Two results with the same first match select the same binding. There is no other tie-break. |
| `Locator.Resolve` | hmdriver2/_xpath.py:19-38 | Fails with the empty-hierarchy error exactly when the dump is `None` or `{}`. Otherwise the query runs on the normalised tree: an exception from the evaluator passes through, and a node list is handed to `Select`. |
| `Locator.ResolveBindsWellFormed` | hmdriver2/_xpath.py:25-35 | Suppose the evaluator returns a node list whose first match lies in the tree it was given. Then only `parse_bounds` can still fail, and a successful binding has clean attribute values and a well-formed node with no text. |
| `Locator.LocatedTextComesFromAttribute` | hmdriver2/_xpath.py:82-106 | For an element bound to a node that `_json2xml` built, `get_text` is the stripped `text` attribute, and the node-text tier adds nothing. |
| `Locator.XPath.constructor` | hmdriver2/_xpath.py:16-17 | The locator holds its driver and collaborators and has run no query. |
| `Locator.XPath.Locate` | hmdriver2/_xpath.py:19-38 | Makes exactly one capture request. An empty capture fails before any query is evaluated. Otherwise it evaluates `xpath` exactly once. It then either fails with `Resolve`'s error, or returns a fresh element bound as `Resolve` says, with an empty centre cache. |

## Left out

- The lxml XPath evaluator is a parameter, returning a node list or an exception. The model does not derive which expressions give which outcome. It also does not assume that the nodes returned come from the tree the evaluator was given, so `Locator.ResolveBindsWellFormed` takes that as a hypothesis.
- `Locator.Resolve` and `Locator.XPath.Locate` treat a query value that is not a node-set (a number, string or boolean) as the evaluator raising. The source raises at `len(result)` or at `result[0].attrib` for such values, with one exception: an empty string, which it treats as no match. The evaluator must report that case as an empty node list.
- `Locator.Resolve` and `Locator.XPath.Locate` also treat a list of strings as the evaluator raising. lxml returns such a list for a query that selects attribute or text nodes, such as `//*[@text="OK"]/@bounds`. For a non-empty list of this kind the source raises `AttributeError` at `result[0].attrib`; an empty one is no match, which the evaluator reports as an empty node list.
- `Normalizer.Normalize` and `Normalizer.Json2Xml` are total at any depth. `_json2xml` recurses once per level, so on a dump nested about 1000 levels deep Python's default recursion limit raises `RecursionError`. The model does not capture that limit.
- `parse_bounds` and `Bounds.get_center` live in files that are not part of this model, so they are parameters. The midpoint rule is not modelled: the centre of `[10,20][30,60]` is not derived. `parse_bounds` may return a rectangle, return `None` or raise, but which inputs lead to which outcome is not modelled. `get_center` is treated as unable to raise.
- `Normalizer.Normalize` and `Normalizer.Json2Xml` do not model lxml's input checks, so they never fail where `etree.Element` (hmdriver2/_xpath.py:54) raises `ValueError`. lxml checks that the tag and every attribute name are valid XML names. It also checks that every attribute value is XML-compatible text, and a `type`-derived tag is checked too. U+FFFE and U+FFFF are not XML-compatible, and `_sanitize_text` keeps them. For example, `{"attributes": {"text": "\uffff"}}` makes the source raise, while the model gives `Node("orgRoot", map["text" := "\uFFFF"], None, [])`.
- Attribute order is not modelled: attributes are a `map`, while the Python dictionary and the lxml element keep insertion order.
- Attribute values are modelled only as JSON strings, integers, booleans and null. Floating-point values and nested containers are left out, because of how `str()` formats them. A `hierarchy` whose `attributes` or `children` entry has the wrong type makes the source raise in a place the model does not cover.
- `Snapshot.extraKeys` stands for the dump's keys other than `attributes` and `children`. They matter only for the `if not hierarchy` test.
- The `@delay` pacing decorator and every `logger` call are left out: both are timing and I/O.
- The `try/except` around `_xml_node.text` is left out. It guards failures inside lxml, and node text is modelled as an `Option<string>`.
- The first `text` property (lines 108-114) is left out as an operation, because the later definition overrides it (see Findings).
- `info`'s `hasattr` fallback branch is left out. The constructor always sets `attrib_info`, so that branch cannot run, and `Info` simply returns the map.
- The requests the driver receives are recorded, but their effect on the device, and transport failures, are not.
- `_verify` tests `not self.bounds` while `exists()` tests `bounds is not None`. The model treats both as "bounds present", on the assumption that a `Bounds` value is always truthy. `Bounds` is defined in hmdriver2/proto.py, which is not part of this model.

## Findings

| source | as written | input that shows it | evidently intended | confidence | as-written member | corrected member |
|---|---|---|---|---|---|---|
| hmdriver2/_xpath.py:108-114, 155-158 | `text` is defined twice. The second definition silently replaces the first, whose docstring says it calls `get_text()`. The effective property returns `info.get("text")`: unstripped, without the node-text fallback, and `None` on an unbound element. | A bound element with `text = " Hi "` gives `" Hi "` instead of `"Hi"`. An unbound element gives `None` instead of `""`. | `text` returns `get_text()`: stripped, three-tier, and `""` when unbound. | medium, not executed | `XmlElement.TextOverrideDiffersFromGetText` | `XmlElement.Element.GetText` |
