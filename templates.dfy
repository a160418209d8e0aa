/** The six boilerplate documents of index.js:82-167. Each is a JavaScript
    template literal: fixed text interleaved with substitutions of the component
    name or of one of the rendered snippets. */
module Templates {
  import opened Labels
  import opened Render

  /** What a `${…}` substitution of the templates inserts. */
  datatype Hole =
    | ComponentName          // `${componentName}`
    | ComponentPropsSnippet  // `${insertComponentProps()}`
    | TypesSnippet           // `${insertTypesProps()}`
    | ArgTypesSnippet        // `${insertStoriesArgTypesProps()}`
    | TemplateArgsSnippet    // `${insertStoriesTemplateProps()}`

  /** A piece of a template literal: fixed text or a substitution. */
  datatype Part = Text(text: string) | Slot(hole: Hole)

  /** The value a substitution takes for the given component name and properties. */
  function Fill(h: Hole, name: string, props: seq<string>): (r: string)
    ensures h == ComponentName ==> r == name
  {
    match h
    case ComponentName => name
    case ComponentPropsSnippet => InsertComponentProps(name, props)
    case TypesSnippet => InsertTypesProps(props)
    case ArgTypesSnippet => InsertStoriesArgTypesProps(props)
    case TemplateArgsSnippet => InsertStoriesTemplateProps(props)
  }

  function PartText(p: Part, name: string, props: seq<string>): (r: string)
    ensures p.Text? ==> r == p.text
    ensures p.Slot? ==> r == Fill(p.hole, name, props)
  {
    match p
    case Text(t) => t
    case Slot(h) => Fill(h, name, props)
  }

  /** Evaluating a template literal: its pieces, with every substitution filled
      in, left to right. */
  function Interpolate(t: seq<Part>, name: string, props: seq<string>): (r: string)
    ensures t != [] && t[0].Text? ==> |r| >= |t[0].text|
    decreases |t|
  {
    if t == [] then "" else PartText(t[0], name, props) + Interpolate(t[1..], name, props)
  }

  lemma {:induction false} InterpolateAppend(t: seq<Part>, u: seq<Part>, name: string, props: seq<string>)
    ensures Interpolate(t + u, name, props) == Interpolate(t, name, props) + Interpolate(u, name, props)
    decreases |t|
  {
    if t == [] {
      assert t + u == u;
    } else {
      assert (t + u)[1..] == t[1..] + u;
      InterpolateAppend(t[1..], u, name, props);
      AppendAssoc(PartText(t[0], name, props), Interpolate(t[1..], name, props), Interpolate(u, name, props));
    }
  }

  /** A rendered template depends only on the substitutions it uses. */
  lemma {:induction false} InterpolateUsesOnlyItsSlots(t: seq<Part>, n1: string, p1: seq<string>, n2: string, p2: seq<string>)
    requires forall i :: 0 <= i < |t| && t[i].Slot? ==> Fill(t[i].hole, n1, p1) == Fill(t[i].hole, n2, p2)
    ensures Interpolate(t, n1, p1) == Interpolate(t, n2, p2)
    decreases |t|
  {
    if t != [] {
      assert forall i :: 0 <= i < |t| - 1 ==> t[1..][i] == t[i + 1];
      InterpolateUsesOnlyItsSlots(t[1..], n1, p1, n2, p2);
    }
  }

  /** `x` is found in `s` at offset `i`. */
  predicate OccursAt(x: string, s: string, i: int) {
    0 <= i <= |s| - |x| && s[i..i + |x|] == x
  }

  /** `x` occurs in `s`. */
  predicate Occurs(x: string, s: string) {
    exists i | 0 <= i <= |s| :: OccursAt(x, s, i)
  }

  lemma OccursInContext(x: string, a: string, b: string)
    requires Occurs(x, b)
    ensures Occurs(x, a + b) && Occurs(x, b + a)
  {
    var i :| 0 <= i <= |b| && OccursAt(x, b, i);
    assert 0 <= i <= |b| - |x| && b[i..i + |x|] == x;
    assert (a + b)[|a| + i..|a| + i + |x|] == b[i..i + |x|];
    assert OccursAt(x, a + b, |a| + i);
    assert (b + a)[i..i + |x|] == b[i..i + |x|];
    assert OccursAt(x, b + a, i);
  }

  lemma OccursAsPrefix(x: string, b: string)
    ensures Occurs(x, x + b)
  {
    assert (x + b)[0..|x|] == x;
    assert OccursAt(x, x + b, 0);
  }

  /** Every substitution a template uses shows up in the rendered text. */
  lemma FilledSlotOccurs(t: seq<Part>, k: nat, name: string, props: seq<string>)
    requires k < |t| && t[k].Slot?
    ensures Occurs(Fill(t[k].hole, name, props), Interpolate(t, name, props))
  {
    var x := Fill(t[k].hole, name, props);
    assert t == t[..k] + t[k..];
    InterpolateAppend(t[..k], t[k..], name, props);
    assert t[k..][1..] == t[k + 1..];
    var rest := Interpolate(t[k + 1..], name, props);
    assert Interpolate(t[k..], name, props) == x + rest;
    OccursAsPrefix(x, rest);
    OccursInContext(x, Interpolate(t[..k], name, props), x + rest);
  }

  // ---------------------------------------------------------------------------
  // The six documents

  /** The kinds of document the scaffolder writes, in the order it writes them. */
  datatype Kind = Index | Component | Types | Styles | Stories | Test

  /** `indexBoilerplate` (index.js:82-87). */
  const IndexTemplate: seq<Part> := [
    Text("import React from \"react\"\n"
      + "import { "), Slot(ComponentName), Text(" } from \"./"), Slot(ComponentName), Text("\"\n"
      + "\n"
      + "export { "), Slot(ComponentName), Text(" }\n"
      + "\n")
  ]

  /** `componentBoilerplate` (index.js:89-100). */
  const ComponentTemplate: seq<Part> := [
    Text("import React from \"react\"\n"
      + "import { ExtendedStyles as E, Styles as S } from \"./"), Slot(ComponentName), Text(".styles\"\n"
      + "\n"
      + "export const "), Slot(ComponentName), Text(" = ("), Slot(ComponentPropsSnippet), Text(") => {\n"
      + "  return (\n"
      + "    <S.Wrapper className={className}>\n"
      + "      <>{/* COMPONENTS / ELEMENTS */}</>\n"
      + "    </S.Wrapper>\n"
      + "  )\n"
      + "}\n"
      + "\n")
  ]

  /** `typesBoilerplate` (index.js:102-107). */
  const TypesTemplate: seq<Part> := [
    Text("namespace "), Slot(ComponentName), Text(TypesOpen), Slot(TypesSnippet), Text(TypesClose)
  ]
  const TypesOpen := " {" + "\n" + InterfaceLine
  const TypesClose := "\n" + ClassNameLine + "\n" + "  }" + "\n" + "}" + "\n"
  const InterfaceLine := "  export interface Props {"
  const ClassNameLine := "    className?: string"

  /** `stylesBoilerplate` (index.js:109-116). */
  const StylesTemplate: seq<Part> := [
    Text("import styled from \"styled-components\"\n"
      + "\n"
      + "export const Styles = {\n"
      + "  Wrapper: styled./* ELEMENT */``\n"
      + "}\n"
      + "\n"
      + "export const ExtendedStyles = {}\n")
  ]

  /** `storiesBoilerplate` (index.js:118-146). */
  const StoriesTemplate: seq<Part> := [
    Text("// also exported from '@storybook/react' if you can deal with breaking changes in 6.1\n"
      + "import { Meta, Story } from \"@storybook/react/types-6-0\"\n"
      + "import React from \"react\"\n"
      + "import styled from \"styled-components\"\n"
      + "import "), Slot(ComponentName), Text(" from \".\"\n"
      + "\n"
      + "const Wrapper = styled.div`\n"
      + "  align-items: center;\n"
      + "  display: flex;\n"
      + "  justify-content: center;\n"
      + "`\n"
      + "\n"
      + "export default {\n"
      + "  title: \"Components/"), Slot(ComponentName), Text("\",\n"
      + "  component: "), Slot(ComponentName), Text(",\n"
      + "  argTypes: {"), Slot(ArgTypesSnippet), Text("\n"
      + "  },\n"
      + "} as Meta\n"
      + "\n"
      + "const Template: Story<"), Slot(ComponentName), Text(".Props> = (args) => (\n"
      + "  <Wrapper>\n"
      + "    <"), Slot(ComponentName), Text(" {...args} />\n"
      + "  </Wrapper>\n"
      + ")\n"
      + "\n"
      + "export const General = Template.bind({})\n"
      + "General.args = {"), Slot(TemplateArgsSnippet), Text("\n"
      + "}\n")
  ]

  /** `testsBoilerplate` (index.js:148-167). */
  const TestTemplate: seq<Part> := [
    Text("import \"@testing-library/jest-dom/extend-expect\"\n"
      + "import React from \"react\"\n"
      + "import "), Slot(ComponentName), Text(" from \".\"\n"
      + "import { render, screen } from \"../../../helpers/test-utils\"\n"
      + "\n"
      + "describe(\""), Slot(ComponentName), Text("\", () => {\n"
      + "  beforeEach(() => {\n"
      + "    render(\n"
      + "      <"), Slot(ComponentName), Text(" /* PROPS, IF ANY */ />\n"
      + "    )\n"
      + "  })\n"
      + "\n"
      + "  test(/* PASS CONDITION DESCRIPTION */, () => {\n"
      + "    const /* ELEMENT */ = screen./* QUERY */\n"
      + "\n"
      + "    expect(/* SOMETHING */).toBe(/* SOMETHING */)\n"
      + "  })\n"
      + "})\n"
      + "\n")
  ]

  function Template(kind: Kind): (t: seq<Part>)
  {
    match kind
    case Index => IndexTemplate
    case Component => ComponentTemplate
    case Types => TypesTemplate
    case Styles => StylesTemplate
    case Stories => StoriesTemplate
    case Test => TestTemplate
  }

  /** The text written to the file of the given kind: its template with the
      name and the snippets filled in. No document is empty, every one but the
      style sheet names the component, and each snippet lands in the document
      that uses it. */
  function Document(kind: Kind, name: string, props: seq<string>): (r: string)
    ensures r != []
    ensures kind != Styles ==> Occurs(name, r)
    ensures kind == Component ==> Occurs(InsertComponentProps(name, props), r)
    ensures kind == Types ==> Occurs(InsertTypesProps(props), r)
    ensures kind == Stories ==> Occurs(InsertStoriesArgTypesProps(props), r) && Occurs(InsertStoriesTemplateProps(props), r)
  {
    FilledNonEmpty(kind, name, props);
    FilledNamesComponent(kind, name, props);
    FilledSnippetsOccur(kind, name, props);
    Interpolate(Template(kind), name, props)
  }

  /** A template opens with fixed text, so what it renders is never empty. */
  predicate OpensWithText(t: seq<Part>) {
    t != [] && t[0].Text? && t[0].text != []
  }

  /** The only substitution a template makes is the component name. */
  predicate NameOnly(t: seq<Part>) {
    forall i :: 0 <= i < |t| && t[i].Slot? ==> t[i].hole == ComponentName
  }

  lemma IndexShape()
    ensures OpensWithText(IndexTemplate) && NameOnly(IndexTemplate) && IndexTemplate[1] == Slot(ComponentName)
  {}

  lemma ComponentShape()
    ensures OpensWithText(ComponentTemplate) && ComponentTemplate[1] == Slot(ComponentName)
    ensures ComponentTemplate[5] == Slot(ComponentPropsSnippet)
  {}

  lemma TypesShape()
    ensures OpensWithText(TypesTemplate) && TypesTemplate[1] == Slot(ComponentName)
    ensures TypesTemplate[3] == Slot(TypesSnippet)
  {}

  lemma StylesShape()
    ensures OpensWithText(StylesTemplate) && |StylesTemplate| == 1
  {}

  lemma StoriesShape()
    ensures OpensWithText(StoriesTemplate) && StoriesTemplate[1] == Slot(ComponentName)
    ensures StoriesTemplate[7] == Slot(ArgTypesSnippet) && StoriesTemplate[13] == Slot(TemplateArgsSnippet)
  {}

  lemma TestShape()
    ensures OpensWithText(TestTemplate) && NameOnly(TestTemplate) && TestTemplate[1] == Slot(ComponentName)
  {}

  /** Every filled template has content. */
  lemma FilledNonEmpty(kind: Kind, name: string, props: seq<string>)
    ensures Interpolate(Template(kind), name, props) != []
  {
    match kind
    case Index => IndexShape();
    case Component => ComponentShape();
    case Types => TypesShape();
    case Styles => StylesShape();
    case Stories => StoriesShape();
    case Test => TestShape();
  }

  /** Every filled template but the style sheet names the component. */
  lemma FilledNamesComponent(kind: Kind, name: string, props: seq<string>)
    ensures kind != Styles ==> Occurs(name, Interpolate(Template(kind), name, props))
  {
    match kind {
      case Index => IndexShape();
      case Component => ComponentShape();
      case Types => TypesShape();
      case Styles => return;
      case Stories => StoriesShape();
      case Test => TestShape();
    }
    FilledSlotOccurs(Template(kind), 1, name, props);
  }

  /** Each rendered snippet lands in the filled template that uses it. */
  lemma FilledSnippetsOccur(kind: Kind, name: string, props: seq<string>)
    ensures kind == Component ==> Occurs(InsertComponentProps(name, props), Interpolate(Template(kind), name, props))
    ensures kind == Types ==> Occurs(InsertTypesProps(props), Interpolate(Template(kind), name, props))
    ensures kind == Stories ==>
      && Occurs(InsertStoriesArgTypesProps(props), Interpolate(Template(kind), name, props))
      && Occurs(InsertStoriesTemplateProps(props), Interpolate(Template(kind), name, props))
  {
    match kind {
      case Component =>
        ComponentShape();
        FilledSlotOccurs(ComponentTemplate, 5, name, props);
      case Types =>
        TypesShape();
        FilledSlotOccurs(TypesTemplate, 3, name, props);
      case Stories =>
        StoriesShape();
        FilledSlotOccurs(StoriesTemplate, 7, name, props);
        FilledSlotOccurs(StoriesTemplate, 13, name, props);
      case _ =>
    }
  }

  /** With no properties the component destructures only `className`. */
  lemma ComponentWithoutProps(name: string)
    ensures Occurs("{ className }: " + name + ".Props", Document(Component, name, []))
  {
    assert InsertComponentProps(name, []) == "{ className }: " + name + ".Props";
  }

  /** The style sheet is the same for every component. */
  lemma StylesIgnoreInputs(n1: string, p1: seq<string>, n2: string, p2: seq<string>)
    ensures Document(Styles, n1, p1) == Document(Styles, n2, p2)
  {
    StylesShape();
    InterpolateUsesOnlyItsSlots(StylesTemplate, n1, p1, n2, p2);
  }

  /** The index file does not depend on the properties. */
  lemma IndexIgnoresProps(name: string, p1: seq<string>, p2: seq<string>)
    ensures Document(Index, name, p1) == Document(Index, name, p2)
  {
    IndexShape();
    InterpolateUsesOnlyItsSlots(IndexTemplate, name, p1, name, p2);
  }

  /** The test file does not depend on the properties. */
  lemma TestIgnoresProps(name: string, p1: seq<string>, p2: seq<string>)
    ensures Document(Test, name, p1) == Document(Test, name, p2)
  {
    TestShape();
    InterpolateUsesOnlyItsSlots(TestTemplate, name, p1, name, p2);
  }

  // ---------------------------------------------------------------------------
  // The type declaration, line by line

  /** Gluing onto a text that starts with a line break just appends its lines. */
  lemma GlueOntoBreak(l: seq<string>, c: seq<string>)
    requires |l| >= 1 && |c| >= 1 && c[0] == ""
    ensures Glue(l, c) == l + c[1..]
  {
    assert l[|l| - 1] + "" == l[|l| - 1];
    assert l == l[..|l| - 1] + [l[|l| - 1]];
  }

  lemma NoBreakInterfaceLine() ensures '\n' !in InterfaceLine {}
  lemma NoBreakClassNameLine() ensures '\n' !in ClassNameLine {}

  lemma TypesOpenLines() ensures Lines(TypesOpen) == [" {", InterfaceLine] {
    NoBreakInterfaceLine();
    LinesOfLine(InterfaceLine);
    LinesOfBreakAfter(" {", InterfaceLine);
  }

  lemma TypesCloseLines() ensures Lines(TypesClose) == ["", ClassNameLine, "  }", "}", ""] {
    NoBreakClassNameLine();
    var end := "}" + "\n";
    LinesOfBreakAfter("}", "");
    assert end + "" == end;
    var braces := "  }" + "\n" + end;
    LinesOfBreakAfter("  }", end);
    AppendAssoc("  }" + "\n", "}", "\n");
    var rest := ClassNameLine + "\n" + braces;
    LinesOfBreakAfter(ClassNameLine, braces);
    LinesOfBreakAfter("", rest);
    assert "" + "\n" + rest == "\n" + rest;
    assert TypesClose == "\n" + rest by {
      AppendAssoc("\n" + ClassNameLine + "\n", "  }" + "\n", end);
      AppendAssoc("\n" + ClassNameLine + "\n", "  }", "\n");
      AppendAssoc("\n", ClassNameLine + "\n", braces);
      AppendAssoc("\n", ClassNameLine, "\n");
      AppendAssoc(ClassNameLine, "\n", braces);
    }
  }

  /** A template of two substitutions between three fixed texts. */
  lemma InterpolateTwoSlots(a: string, h: Hole, b: string, k: Hole, c: string, name: string, props: seq<string>)
    ensures Interpolate([Text(a), Slot(h), Text(b), Slot(k), Text(c)], name, props)
      == a + (Fill(h, name, props) + (b + (Fill(k, name, props) + c)))
  {
    var t := [Text(a), Slot(h), Text(b), Slot(k), Text(c)];
    InterpolateLast(Text(c), name, props);
    assert t[4..] == [Text(c)];
    InterpolateStep(t[3..], name, props);
    assert t[3..][1..] == t[4..];
    InterpolateStep(t[2..], name, props);
    assert t[2..][1..] == t[3..];
    InterpolateStep(t[1..], name, props);
    assert t[1..][1..] == t[2..];
    InterpolateStep(t, name, props);
  }

  lemma InterpolateStep(t: seq<Part>, name: string, props: seq<string>)
    requires t != []
    ensures Interpolate(t, name, props) == PartText(t[0], name, props) + Interpolate(t[1..], name, props)
  {}

  lemma InterpolateLast(p: Part, name: string, props: seq<string>)
    ensures Interpolate([p], name, props) == PartText(p, name, props)
  {
    assert [p][1..] == [];
    AppendEmpty(PartText(p, name, props));
  }


  lemma TypesTemplateText(name: string, props: seq<string>)
    ensures Interpolate(TypesTemplate, name, props) == "namespace " + (name + (TypesOpen + (InsertTypesProps(props) + TypesClose)))
  {
    InterpolateTwoSlots("namespace ", ComponentName, TypesOpen, TypesSnippet, TypesClose, name, props);
  }

  /** The lines of the interface members and what closes the declaration. */
  lemma TypesTailLines(members: string, memberLines: seq<string>)
    requires Lines(members) == [""] + memberLines
    ensures Lines(TypesOpen + (members + TypesClose)) == [" {", InterfaceLine] + memberLines + [ClassNameLine, "  }", "}", ""]
  {
    var tail := members + TypesClose;
    TypesCloseLines();
    LinesAppend(members, TypesClose);
    GlueOntoBreak([""] + memberLines, Lines(TypesClose));
    assert Lines(tail) == [""] + memberLines + [ClassNameLine, "  }", "}", ""];
    TypesOpenLines();
    LinesAppend(TypesOpen, tail);
    GlueOntoBreak(Lines(TypesOpen), Lines(tail));
  }

  /** Two break-free texts in front of a text join its first line. */
  lemma LinesOfTwoPrefixes(lead: string, name: string, body: string)
    requires '\n' !in lead && '\n' !in name
    ensures Lines(lead + (name + body)) == [lead + name + Lines(body)[0]] + Lines(body)[1..]
  {
    LinesOfPrefixed(name, body);
    LinesOfPrefixed(lead, name + body);
    AppendAssoc(lead, name, Lines(body)[0]);
  }

  lemma NoBreakNamespace() ensures '\n' !in "namespace " {}

  lemma TypesTextLines(name: string, members: string, memberLines: seq<string>)
    requires '\n' !in name
    requires Lines(members) == [""] + memberLines
    ensures Lines("namespace " + (name + (TypesOpen + (members + TypesClose)))) ==
      ["namespace " + name + " {", InterfaceLine] + memberLines + [ClassNameLine, "  }", "}", ""]
  {
    var body := TypesOpen + (members + TypesClose);
    TypesTailLines(members, memberLines);
    NoBreakNamespace();
    LinesOfTwoPrefixes("namespace ", name, body);
  }

  /** The type declaration holds the namespace line, the interface line, one
      member line per property in order, the `className` member and the closing
      braces. */
  lemma TypesDocumentLines(name: string, props: seq<string>)
    requires '\n' !in name
    requires forall i :: 0 <= i < |props| ==> '\n' !in props[i]
    ensures Lines(Document(Types, name, props)) ==
      ["namespace " + name + " {", InterfaceLine] + MapNames(props, TypeLine) + [ClassNameLine, "  }", "}", ""]
  {
    InsertTypesPropsLines(props);
    TypesTextLines(name, InsertTypesProps(props), MapNames(props, TypeLine));
    TypesTemplateText(name, props);
  }
}
