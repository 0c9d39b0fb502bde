/** `generateXmlContent`: the XML export of the cases. Attribute values are
    written as they are, without escaping; `JSON.stringify` of the parameters
    is the parameter `stringify`. */
module XmlExport {
  import opened Wrappers
  import opened Text
  import opened JsonValue
  import opened CaseModel

  const XmlHeader: string := "<?xml version=\"1.0\" encoding=\"UTF-8\"?>\n<testcases>\n"
  const XmlFooter: string := "</testcases>"

  // ---------------------------------------------------------------- the lines written

  function CaseOpenLine(tc: Case): string {
    "  <testcase id=\"" + tc.id + "\" name=\"" + tc.name + "\">\n"
  }

  const CaseCloseLine: string := "  </testcase>\n"

  function SectionOpenLine(sectionTag: string): string {
    "    <" + sectionTag + ">\n"
  }

  function SectionCloseLine(sectionTag: string): string {
    "    </" + sectionTag + ">\n"
  }

  /** The opening line of the item at position `i`: its `index` is `i + 1`. */
  function ItemOpenLine(itemTag: string, item: Step, i: nat): string {
    "      <" + itemTag + " index=\"" + NatToString(i + 1) + "\" name=\"" + item.name + "\">\n"
  }

  function ItemCloseLine(itemTag: string): string {
    "      </" + itemTag + ">\n"
  }

  function ComponentOpenLine(comp: Component): string {
    "        <component type=\"" + comp.kind + "\" name=\"" + comp.name + "\">\n"
  }

  function ParamsLine(comp: Component, stringify: Json -> string): string {
    "          <params>" + stringify(comp.params) + "</params>\n"
  }

  const ComponentCloseLine: string := "        </component>\n"

  // ---------------------------------------------------------------- the document

  function ComponentXml(comp: Component, stringify: Json -> string): string {
    ComponentOpenLine(comp) + ParamsLine(comp, stringify) + ComponentCloseLine
  }

  function ComponentsXml(comps: seq<Component>, stringify: Json -> string): string
    decreases |comps|
  {
    if comps == [] then []
    else ComponentsXml(comps[..|comps| - 1], stringify) + ComponentXml(comps[|comps| - 1], stringify)
  }

  function ItemXml(itemTag: string, item: Step, i: nat, stringify: Json -> string): string {
    ItemOpenLine(itemTag, item, i) + ComponentsXml(item.components, stringify) + ItemCloseLine(itemTag)
  }

  function ItemsXml(itemTag: string, items: seq<Step>, stringify: Json -> string): string
    decreases |items|
  {
    if items == [] then []
    else ItemsXml(itemTag, items[..|items| - 1], stringify) + ItemXml(itemTag, items[|items| - 1], |items| - 1, stringify)
  }

  function SectionXml(sectionTag: string, itemTag: string, items: seq<Step>, stringify: Json -> string): string {
    SectionOpenLine(sectionTag) + ItemsXml(itemTag, items, stringify) + SectionCloseLine(sectionTag)
  }

  function CaseXml(tc: Case, stringify: Json -> string): string {
    CaseOpenLine(tc)
    + SectionXml("preconditions", "precondition", tc.preconditions, stringify)
    + SectionXml("steps", "step", tc.steps, stringify)
    + SectionXml("expectedResults", "expectedResult", tc.expectedResults, stringify)
    + CaseCloseLine
  }

  function CasesXml(cases: seq<Case>, stringify: Json -> string): string
    decreases |cases|
  {
    if cases == [] then []
    else CasesXml(cases[..|cases| - 1], stringify) + CaseXml(cases[|cases| - 1], stringify)
  }

  /** The whole export. */
  function XmlDocument(cases: seq<Case>, stringify: Json -> string): string {
    XmlHeader + CasesXml(cases, stringify) + XmlFooter
  }

  // ---------------------------------------------------------------- concatenation

  lemma Chain3(x: string, a: string, b: string, c: string)
    ensures ((x + a) + b) + c == x + ((a + b) + c)
  {
  }

  lemma Chain4(x: string, a: string, b: string, c: string, d: string)
    ensures (((x + a) + b) + c) + d == x + (((a + b) + c) + d)
  {
  }

  lemma Chain5(x: string, a: string, b: string, c: string, d: string, e: string)
    ensures ((((x + a) + b) + c) + d) + e == x + ((((a + b) + c) + d) + e)
  {
  }

  lemma ComponentsSnoc(comps: seq<Component>, j: nat, stringify: Json -> string)
    requires j < |comps|
    ensures ComponentsXml(comps[..j + 1], stringify) == ComponentsXml(comps[..j], stringify) + ComponentXml(comps[j], stringify)
  {
    assert comps[..j + 1][..j] == comps[..j];
  }

  lemma ItemsSnoc(itemTag: string, items: seq<Step>, i: nat, stringify: Json -> string)
    requires i < |items|
    ensures ItemsXml(itemTag, items[..i + 1], stringify) == ItemsXml(itemTag, items[..i], stringify) + ItemXml(itemTag, items[i], i, stringify)
  {
    assert items[..i + 1][..i] == items[..i];
  }

  lemma CasesSnoc(cases: seq<Case>, k: nat, stringify: Json -> string)
    requires k < |cases|
    ensures CasesXml(cases[..k + 1], stringify) == CasesXml(cases[..k], stringify) + CaseXml(cases[k], stringify)
  {
    assert cases[..k + 1][..k] == cases[..k];
  }

  lemma CasesLast(cases: seq<Case>, stringify: Json -> string)
    requires cases != []
    ensures CasesXml(cases, stringify) == CasesXml(cases[..|cases| - 1], stringify) + CaseXml(cases[|cases| - 1], stringify)
  {
  }

  // ---------------------------------------------------------------- properties

  /** The cases are exported one after the other: the export of a list is the
      exports of its parts joined. */
  lemma {:induction false} CasesXmlAppend(a: seq<Case>, b: seq<Case>, stringify: Json -> string)
    ensures CasesXml(a + b, stringify) == CasesXml(a, stringify) + CasesXml(b, stringify)
    decreases |b|
  {
    if b == [] {
      assert a + b == a;
    } else {
      var ab := a + b;
      var n := |b| - 1;
      assert ab[..|ab| - 1] == a + b[..n];
      assert ab[|ab| - 1] == b[n];
      var x, y, z := CasesXml(a, stringify), CasesXml(b[..n], stringify), CaseXml(b[n], stringify);
      CasesLast(ab, stringify);
      CasesLast(b, stringify);
      CasesXmlAppend(a, b[..n], stringify);
      AppendAssoc(x, y, z);
    }
  }

  /** Each case's element stands on its own in the document, between the
      elements of the cases before and after it. */
  lemma CaseInDocument(cases: seq<Case>, k: nat, stringify: Json -> string)
    requires k < |cases|
    ensures XmlDocument(cases, stringify)
            == XmlHeader + (CasesXml(cases[..k], stringify) + (CaseXml(cases[k], stringify)
               + CasesXml(cases[k + 1..], stringify))) + XmlFooter
  {
    var before, rest := cases[..k], cases[k + 1..];
    assert cases == before + ([cases[k]] + rest);
    CasesXmlAppend(before, [cases[k]] + rest, stringify);
    CasesXmlAppend([cases[k]], rest, stringify);
    assert CasesXml([cases[k]], stringify) == CaseXml(cases[k], stringify) by {
      assert [cases[k]][..0] == [];
      assert CasesXml([], stringify) == [];
    }
  }

  /** Items are numbered from 1 in list order: appending an item adds one
      element whose `index` attribute is the new length. */
  lemma ItemNumbering(itemTag: string, items: seq<Step>, item: Step, stringify: Json -> string)
    ensures ItemsXml(itemTag, items + [item], stringify)
            == ItemsXml(itemTag, items, stringify)
               + (("      <" + itemTag + " index=\"" + NatToString(|items| + 1) + "\" name=\"" + item.name + "\">\n")
               + ComponentsXml(item.components, stringify) + ItemCloseLine(itemTag))
  {
    assert (items + [item])[..|items|] == items;
  }

  /** With no cases the export is the declaration and an empty root. */
  lemma EmptyDocument(stringify: Json -> string)
    ensures XmlDocument([], stringify) == "<?xml version=\"1.0\" encoding=\"UTF-8\"?>\n<testcases>\n</testcases>"
  {
  }

  /** Names go into attributes as they are: a `"` in a case name ends up
      verbatim in the `name` attribute. */
  lemma NamesNotEscaped(tc: Case, stringify: Json -> string)
    ensures StartsWith(CaseXml(tc, stringify), "  <testcase id=\"" + tc.id + "\" name=\"" + tc.name + "\">\n")
  {
    var head := CaseOpenLine(tc);
    var pre := SectionXml("preconditions", "precondition", tc.preconditions, stringify);
    var steps := SectionXml("steps", "step", tc.steps, stringify);
    var exp := SectionXml("expectedResults", "expectedResult", tc.expectedResults, stringify);
    Chain4(head, pre, steps, exp, CaseCloseLine);
    var tail := ((pre + steps) + exp) + CaseCloseLine;
    assert (head + tail)[..|head|] == head;
  }

  // ---------------------------------------------------------------- the serialiser

  /** The innermost `forEach`: the components of one item. */
  method AppendComponents(xml: string, comps: seq<Component>, stringify: Json -> string) returns (out: string)
    ensures out == xml + ComponentsXml(comps, stringify)
  {
    out := xml;
    var j := 0;
    while j < |comps|
      invariant 0 <= j <= |comps|
      invariant out == xml + ComponentsXml(comps[..j], stringify)
    {
      var comp := comps[j];
      ComponentsSnoc(comps, j, stringify);
      Chain3(out, ComponentOpenLine(comp), ParamsLine(comp, stringify), ComponentCloseLine);
      AppendAssoc(xml, ComponentsXml(comps[..j], stringify), ComponentXml(comp, stringify));
      out := out + ComponentOpenLine(comp);
      out := out + ParamsLine(comp, stringify);
      out := out + ComponentCloseLine;
      j := j + 1;
    }
    assert comps[..j] == comps;
  }

  /** One section: its opening tag, a numbered element per item, its closing
      tag. */
  method AppendSection(xml: string, sectionTag: string, itemTag: string, items: seq<Step>,
                       stringify: Json -> string) returns (out: string)
    ensures out == xml + SectionXml(sectionTag, itemTag, items, stringify)
  {
    out := xml + SectionOpenLine(sectionTag);
    ghost var start := out;
    var i := 0;
    while i < |items|
      invariant 0 <= i <= |items|
      invariant out == start + ItemsXml(itemTag, items[..i], stringify)
    {
      var item := items[i];
      ItemsSnoc(itemTag, items, i, stringify);
      Chain3(out, ItemOpenLine(itemTag, item, i), ComponentsXml(item.components, stringify), ItemCloseLine(itemTag));
      AppendAssoc(start, ItemsXml(itemTag, items[..i], stringify), ItemXml(itemTag, item, i, stringify));
      out := out + ItemOpenLine(itemTag, item, i);
      out := AppendComponents(out, item.components, stringify);
      out := out + ItemCloseLine(itemTag);
      i := i + 1;
    }
    assert items[..i] == items;
    Chain3(xml, SectionOpenLine(sectionTag), ItemsXml(itemTag, items, stringify), SectionCloseLine(sectionTag));
    out := out + SectionCloseLine(sectionTag);
  }

  /** The body of the outer `forEach`: one case's element. */
  method AppendCase(xml: string, tc: Case, stringify: Json -> string) returns (out: string)
    ensures out == xml + CaseXml(tc, stringify)
  {
    var pre := SectionXml("preconditions", "precondition", tc.preconditions, stringify);
    var steps := SectionXml("steps", "step", tc.steps, stringify);
    var exp := SectionXml("expectedResults", "expectedResult", tc.expectedResults, stringify);
    Chain5(xml, CaseOpenLine(tc), pre, steps, exp, CaseCloseLine);
    out := xml + CaseOpenLine(tc);
    out := AppendSection(out, "preconditions", "precondition", tc.preconditions, stringify);
    out := AppendSection(out, "steps", "step", tc.steps, stringify);
    out := AppendSection(out, "expectedResults", "expectedResult", tc.expectedResults, stringify);
    out := out + CaseCloseLine;
  }

  /** `generateXmlContent` over the cases. */
  method GenerateXmlContent(testCases: seq<Case>, stringify: Json -> string) returns (xml: string)
    ensures xml == XmlDocument(testCases, stringify)
  {
    xml := XmlHeader;
    ghost var start := xml;
    var k := 0;
    while k < |testCases|
      invariant 0 <= k <= |testCases|
      invariant xml == start + CasesXml(testCases[..k], stringify)
    {
      var tc := testCases[k];
      CasesSnoc(testCases, k, stringify);
      AppendAssoc(start, CasesXml(testCases[..k], stringify), CaseXml(tc, stringify));
      xml := AppendCase(xml, tc, stringify);
      k := k + 1;
    }
    assert testCases[..k] == testCases;
    xml := xml + XmlFooter;
  }
}
