/** `_XMLElement` of hmdriver2/_xpath.py: the handle on one located element.
    It is bound when it holds bounds and unbound otherwise; it caches its
    centre on first use and turns each action into one driver request. */
module XmlElement {

  import opened Wrappers
  import opened Proto
  import opened PyStr
  import opened Hierarchy
  import opened DeviceDriver

  /** `XmlElementNotFoundError`. */
  datatype ElementError = XmlElementNotFound

  class Element {
    const bounds: Option<Bounds>
    const d: Driver
    /** `Bounds.get_center`, which is not part of this model. */
    const getCenter: CenterOf
    var attribInfo: map<string, string>
    var xmlNode: Option<Node>
    /** The memoised `center` (`cached_property`); `None` until first read. */
    var cachedCenter: Option<Point>

    /** The cache only ever holds the centre of the element's bounds. */
    ghost predicate Valid()
      reads this
    {
      cachedCenter.Some? ==> bounds.Some? && cachedCenter.value == getCenter(bounds.value)
    }

    /** The centre the element's actions aim at. */
    ghost function Target(): Point
      reads this
      requires bounds.Some?
    {
      getCenter(bounds.value)
    }

    constructor (bounds: Option<Bounds>, d: Driver, getCenter: CenterOf)
      ensures this.bounds == bounds && this.d == d && this.getCenter == getCenter
      ensures attribInfo == map[] && xmlNode == None && cachedCenter == None
      ensures Valid()
    {
      this.bounds := bounds;
      this.d := d;
      this.getCenter := getCenter;
      attribInfo := map[];
      xmlNode := None;
      cachedCenter := None;
    }

    /** `_verify`: raises exactly when the element has no bounds. */
    function Verify(): (r: Outcome<ElementError>)
      reads this
      ensures r.Pass? <==> bounds.Some?
      ensures r.Fail? ==> r.error == XmlElementNotFound
    {
      if bounds.None? then Fail(XmlElementNotFound) else Pass
    }

    /** `exists()`: the element is bound, which is exactly when `_verify`
        lets an action through. */
    predicate Exists()
      reads this
      ensures Exists() <==> bounds.Some?
      ensures Exists() <==> Verify().Pass?
    {
      bounds.Some?
    }

    /** `center`: raises on an unbound element and leaves the cache empty;
        otherwise gives the centre of the bounds and stores it, and once
        stored the cache is returned as it is. */
    method Center() returns (r: Result<Point, ElementError>)
      requires Valid()
      modifies this`cachedCenter
      ensures Valid()
      ensures bounds.None? ==> r == Failure(XmlElementNotFound) && cachedCenter == old(cachedCenter)
      ensures bounds.Some? ==> r == Success(Target()) && cachedCenter == Some(Target())
      ensures old(cachedCenter).Some? ==> r == Success(old(cachedCenter).value) && cachedCenter == old(cachedCenter)
    {
      if cachedCenter.Some? {
        return Success(cachedCenter.value);
      }
      var v := Verify();
      if v.Fail? {
        return Failure(v.error);
      }
      var c := getCenter(bounds.value);
      cachedCenter := Some(c);
      r := Success(c);
    }

    /** `get_text`: "" on an unbound element; otherwise the stripped `text`
        attribute when that is non-empty, else the element's own stripped
        text (missing text reads as ""), else "". */
    function GetText(): (r: string)
      reads this
      ensures !Exists() ==> r == ""
      ensures Exists() && Strip(Lookup(attribInfo, "text").GetOr("")) != "" ==>
                r == Strip(attribInfo["text"])
      ensures Exists() && Strip(Lookup(attribInfo, "text").GetOr("")) == "" ==>
                r == (if xmlNode.Some? then Strip(xmlNode.value.text.GetOr("")) else "")
      ensures r != "" ==> !IsSpace(r[0]) && !IsSpace(r[|r| - 1])
    {
      if !Exists() then ""
      else
        var text := Strip(Lookup(attribInfo, "text").GetOr(""));
        if text != "" then text
        else if xmlNode.Some? then Strip(xmlNode.value.text.GetOr(""))
        else ""
    }

    /** `info`: the matched element's attributes, `{}` when none were bound. */
    function Info(): (r: map<string, string>)
      reads this
      ensures r == attribInfo
    {
      attribInfo
    }

    /** `text` as finally defined: `info.get("text")`, unstripped, and
        absent when there is no `text` attribute. */
    function Text(): (r: Option<string>)
      reads this
      ensures r.Some? <==> "text" in Info()
      ensures r.Some? ==> r.value == Info()["text"]
    {
      Lookup(Info(), "text")
    }

    /** `click`: raises on an unbound element before any request; otherwise
        sends exactly one tap at the centre. */
    method Click() returns (r: Outcome<ElementError>)
      requires Valid()
      modifies this`cachedCenter, d`log
      ensures Valid()
      ensures bounds.None? ==> cachedCenter == old(cachedCenter)
      ensures bounds.Some? ==> cachedCenter == Some(Target())
      ensures bounds.None? ==> r == Fail(XmlElementNotFound) && d.log == old(d.log)
      ensures bounds.Some? ==> r == Pass && d.log == old(d.log) + [Call.Click(Target().x, Target().y)]
    {
      var cx := Center();
      if cx.Failure? {
        return Fail(cx.error);
      }
      var cy := Center();
      d.Click(cx.value.x, cy.value.y);
      r := Pass;
    }

    /** `click_if_exists`: does nothing on an unbound element; otherwise
        sends exactly one tap at the centre. Never raises. */
    method ClickIfExists()
      requires Valid()
      modifies this`cachedCenter, d`log
      ensures Valid()
      ensures bounds.None? ==> cachedCenter == old(cachedCenter)
      ensures bounds.Some? ==> cachedCenter == Some(Target())
      ensures bounds.None? ==> d.log == old(d.log)
      ensures bounds.Some? ==> d.log == old(d.log) + [Call.Click(Target().x, Target().y)]
    {
      if !Exists() {
        return;
      }
      var cx := Center();
      var cy := Center();
      d.Click(cx.value.x, cy.value.y);
    }

    /** `double_click`: like `click`, with a double tap. */
    method DoubleClick() returns (r: Outcome<ElementError>)
      requires Valid()
      modifies this`cachedCenter, d`log
      ensures Valid()
      ensures bounds.None? ==> cachedCenter == old(cachedCenter)
      ensures bounds.Some? ==> cachedCenter == Some(Target())
      ensures bounds.None? ==> r == Fail(XmlElementNotFound) && d.log == old(d.log)
      ensures bounds.Some? ==> r == Pass && d.log == old(d.log) + [Call.DoubleClick(Target().x, Target().y)]
    {
      var cx := Center();
      if cx.Failure? {
        return Fail(cx.error);
      }
      var cy := Center();
      d.DoubleClick(cx.value.x, cy.value.y);
      r := Pass;
    }

    /** `long_click`: like `click`, with a long press. */
    method LongClick() returns (r: Outcome<ElementError>)
      requires Valid()
      modifies this`cachedCenter, d`log
      ensures Valid()
      ensures bounds.None? ==> cachedCenter == old(cachedCenter)
      ensures bounds.Some? ==> cachedCenter == Some(Target())
      ensures bounds.None? ==> r == Fail(XmlElementNotFound) && d.log == old(d.log)
      ensures bounds.Some? ==> r == Pass && d.log == old(d.log) + [Call.LongClick(Target().x, Target().y)]
    {
      var cx := Center();
      if cx.Failure? {
        return Fail(cx.error);
      }
      var cy := Center();
      d.LongClick(cx.value.x, cy.value.y);
      r := Pass;
    }

    /** `input_text`: taps the element to focus it, then types `text`. On
        an unbound element the tap raises and nothing is typed. */
    method InputText(text: string) returns (r: Outcome<ElementError>)
      requires Valid()
      modifies this`cachedCenter, d`log
      ensures Valid()
      ensures bounds.None? ==> cachedCenter == old(cachedCenter)
      ensures bounds.Some? ==> cachedCenter == Some(Target())
      ensures bounds.None? ==> r == Fail(XmlElementNotFound) && d.log == old(d.log)
      ensures bounds.Some? ==>
                r == Pass && d.log == old(d.log) + [Call.Click(Target().x, Target().y), Call.InputText(text)]
    {
      r := Click();
      if r.Fail? {
        return;
      }
      d.InputText(text);
    }
  }

  /** The later `text` property replaces the one that delegates to
      `get_text`: for a bound element whose `text` attribute is " Hi " it
      gives the raw " Hi " where `get_text` gives "Hi", and for an unbound
      element it gives nothing where `get_text` gives "". */
  lemma TextOverrideDiffersFromGetText(bound: Element, unbound: Element)
    requires bound.bounds.Some? && bound.attribInfo == map["text" := " Hi "]
    requires unbound.bounds.None? && unbound.attribInfo == map[]
    ensures bound.Text() == Some(" Hi ") && bound.GetText() == "Hi"
    ensures unbound.Text() == None && unbound.GetText() == ""
  {
    StripPaddedHi();
  }

  /** `" Hi ".strip()` is `"Hi"`. */
  lemma StripPaddedHi()
    ensures Strip(" Hi ") == "Hi"
  {
    TrimStartPaddedHi();
    TrimEndHiSpace();
  }

  lemma TrimStartPaddedHi()
    ensures TrimStart(" Hi ") == "Hi "
  {
    var s := " Hi ";
    assert IsSpace(s[0]) && s[1..] == "Hi ";
    var t := "Hi ";
    assert !IsSpace(t[0]);
  }

  lemma TrimEndHiSpace()
    ensures TrimEnd("Hi ") == "Hi"
  {
    var s := "Hi ";
    assert IsSpace(s[2]) && s[..2] == "Hi";
    var t := "Hi";
    assert !IsSpace(t[1]);
  }
}
