/**
 * The part of a DOM element the scripts read and write: its markup, the
 * `disabled` flag, the class list, `dataset`, attributes and inline style.
 */
module Dom {
  import opened Wrappers
  import opened Strings

  /** A snapshot of an element's fields, so that updates can be stated as functions. */
  datatype ElementState = ElementState(innerHTML: string, disabled: bool, classes: set<string>,
                                       dataset: map<string, string>, attributes: map<string, string>,
                                       style: map<string, string>)
  {
    /** `textContent` of the snapshot. */
    function TextContent(): string {
      StripTags(innerHTML)
    }
  }

  class Element {
    var innerHTML: string
    var disabled: bool
    var classes: set<string>
    var dataset: map<string, string>
    var attributes: map<string, string>
    var style: map<string, string>

    constructor (html: string, attrs: map<string, string>)
      ensures innerHTML == html && attributes == attrs
      ensures !disabled && classes == {} && dataset == map[] && style == map[]
    {
      innerHTML := html;
      disabled := false;
      classes := {};
      dataset := map[];
      attributes := attrs;
      style := map[];
    }

    function State(): ElementState
      reads this
    {
      ElementState(innerHTML, disabled, classes, dataset, attributes, style)
    }

    /** `element.textContent`: the markup without its tags. */
    function TextContent(): string
      reads this
    {
      StripTags(innerHTML)
    }

    /** `element.style[prop]`: the empty string when never set. */
    function Style(prop: string): string
      reads this
    {
      if prop in style then style[prop] else ""
    }

    /** `element.getAttribute(name)`: null when absent. */
    function Attribute(name: string): Option<string>
      reads this`attributes
    {
      if name in attributes then Some(attributes[name]) else None
    }

    /** `element.textContent = text` for text without markup characters. */
    method SetTextContent(text: string)
      modifies this`innerHTML
      ensures innerHTML == text
      ensures '<' !in text ==> TextContent() == text
    {
      innerHTML := text;
      if '<' !in text {
        StripTagsOfPlainText(text);
      }
    }
  }
}
