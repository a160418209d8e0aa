/** The four snippet renderers of index.js:22-80. Each folds the property names
    with `reduce`, starting from the empty string, and appends one fragment per
    name. */
module Render {
  import opened Chars
  import opened Labels

  // ---------------------------------------------------------------------------
  // Folds

  /** `props.reduce((prev, curr) => prev + fragment(curr), "")`: a left fold that
      visits the names in order and appends each fragment to what came before. */
  function Reduce(props: seq<string>, fragment: string -> string): (r: string)
    ensures props == [] ==> r == ""
    ensures props != [] ==> |r| >= |fragment(props[|props| - 1])|
    decreases |props|
  {
    if props == [] then ""
    else Reduce(props[..|props| - 1], fragment) + fragment(props[|props| - 1])
  }

  /** The fragments of all names, first to last: the reference reading of a fold
      over the names. */
  function ConcatMap(props: seq<string>, fragment: string -> string): (r: string)
    ensures props == [] ==> r == ""
    ensures props != [] ==> |r| >= |fragment(props[0])|
    decreases |props|
  {
    if props == [] then "" else fragment(props[0]) + ConcatMap(props[1..], fragment)
  }

  lemma {:induction false} ConcatMapAppend(xs: seq<string>, ys: seq<string>, fragment: string -> string)
    ensures ConcatMap(xs + ys, fragment) == ConcatMap(xs, fragment) + ConcatMap(ys, fragment)
    decreases |xs|
  {
    if xs == [] {
      assert xs + ys == ys;
    } else {
      assert (xs + ys)[1..] == xs[1..] + ys;
      ConcatMapAppend(xs[1..], ys, fragment);
      AppendAssoc(fragment(xs[0]), ConcatMap(xs[1..], fragment), ConcatMap(ys, fragment));
    }
  }

  /** The left fold of `reduce` renders the same text as the fragments taken
      first to last. */
  lemma {:induction false} ReduceIsConcatMap(props: seq<string>, fragment: string -> string)
    ensures Reduce(props, fragment) == ConcatMap(props, fragment)
    decreases |props|
  {
    if props != [] {
      var init, last := props[..|props| - 1], props[|props| - 1];
      ReduceIsConcatMap(init, fragment);
      assert props == init + [last];
      ConcatMapAppend(init, [last], fragment);
      assert ConcatMap([last], fragment) == fragment(last);
    }
  }

  /** Rendering two lists of names one after the other renders their
      concatenation. */
  lemma ReduceAppend(xs: seq<string>, ys: seq<string>, fragment: string -> string)
    ensures Reduce(xs + ys, fragment) == Reduce(xs, fragment) + Reduce(ys, fragment)
  {
    ReduceIsConcatMap(xs + ys, fragment);
    ReduceIsConcatMap(xs, fragment);
    ReduceIsConcatMap(ys, fragment);
    ConcatMapAppend(xs, ys, fragment);
  }

  // ---------------------------------------------------------------------------
  // `Array.prototype.join` and `String.prototype.slice`

  /** `parts.join(sep)`: the parts with `sep` between neighbours. */
  function Join(parts: seq<string>, sep: string): (r: string)
    ensures parts == [] ==> r == ""
    ensures |parts| == 1 ==> r == parts[0]
    decreases |parts|
  {
    if parts == [] then ""
    else if |parts| == 1 then parts[0]
    else parts[0] + sep + Join(parts[1..], sep)
  }

  /** How `slice` reads a position argument against a string of length `len`: a
      negative position counts from the end, and the result is clamped to
      `0..len`. */
  function RelativeIndex(k: int, len: nat): (i: nat)
    ensures i <= len
    ensures 0 <= k <= len ==> i == k
    ensures k < 0 && 0 <= len + k ==> i == len + k
    ensures len + k < 0 ==> i == 0
    ensures len < k ==> i == len
  {
    if k < 0 then (if len + k < 0 then 0 else len + k)
    else if k > len then len
    else k
  }

  /** `s.slice(start, end)` on UTF-16 code units; the empty string when the two
      positions cross. */
  function Slice(s: string, start: int, end: int): (r: string)
    ensures RelativeIndex(start, |s|) <= RelativeIndex(end, |s|) ==>
      |r| == RelativeIndex(end, |s|) - RelativeIndex(start, |s|)
    ensures RelativeIndex(end, |s|) <= RelativeIndex(start, |s|) ==> r == ""
    ensures forall i :: 0 <= i < |r| ==> r[i] == s[RelativeIndex(start, |s|) + i]
  {
    var from, to := RelativeIndex(start, |s|), RelativeIndex(end, |s|);
    if from < to then s[from..to] else ""
  }

  /** `.slice(0, -2)` takes off the last two characters. */
  lemma SliceDropsLastTwo(s: string, t: string)
    requires |t| == 2
    ensures Slice(s + t, 0, -2) == s
  {
    var r := Slice(s + t, 0, -2);
    assert |r| == |s|;
    assert forall i :: 0 <= i < |r| ==> r[i] == (s + t)[i] == s[i];
  }

  // ---------------------------------------------------------------------------
  // insertComponentProps (index.js:22-34)

  /** The fragment `curr + ", "` of the destructuring fold. */
  function WithComma(p: string): (r: string)
    ensures |r| == |p| + 2 && r[..|p|] == p
  {
    p + ", "
  }

  /** Every name followed by `", "` is the names joined by `", "` with one more
      `", "` at the end. */
  lemma {:induction false} ConcatMapWithCommaIsJoin(props: seq<string>)
    requires props != []
    ensures ConcatMap(props, WithComma) == Join(props, ", ") + ", "
    decreases |props|
  {
    if |props| == 1 {
      assert ConcatMap(props[1..], WithComma) == "";
    } else {
      ConcatMapWithCommaIsJoin(props[1..]);
      calc {
        ConcatMap(props, WithComma);
        props[0] + ", " + (Join(props[1..], ", ") + ", ");
        { AppendAssoc(props[0] + ", ", Join(props[1..], ", "), ", "); }
        (props[0] + ", " + Join(props[1..], ", ")) + ", ";
      }
    }
  }

  /** The reduce-then-slice of index.js:24-28 is a join: for a non-empty list it
      gives the names separated by `", "`, with no separator at the end. */
  lemma CommaSnippetIsJoin(props: seq<string>)
    requires props != []
    ensures Slice(Reduce(props, WithComma), 0, -2) == Join(props, ", ")
  {
    ReduceIsConcatMap(props, WithComma);
    ConcatMapWithCommaIsJoin(props);
    SliceDropsLastTwo(Join(props, ", "), ", ");
  }

  /** The parameter destructuring of the component: every property name in order,
      separated by `", "`, then `className`, typed by the component's `Props`.
      With no names only `className` is bound. */
  function InsertComponentProps(componentName: string, props: seq<string>): (r: string)
    ensures props == [] ==> r == "{ className }: " + componentName + ".Props"
    ensures props != [] ==> r == "{ " + Join(props, ", ") + ", className }: " + componentName + ".Props"
  {
    if |props| > 0 then
      var snippet := Slice(Reduce(props, WithComma), 0, -2);
      CommaSnippetIsJoin(props);
      "{ " + snippet + ", className }: " + componentName + ".Props"
    else
      "{ className }: " + componentName + ".Props"
  }

  // ---------------------------------------------------------------------------
  // Reading rendered text back: lines

  /** `s.split("\n")`: the text between line breaks, first to last. */
  function Lines(s: string): (r: seq<string>)
    ensures |r| >= 1
    ensures forall i :: 0 <= i < |r| ==> '\n' !in r[i]
    decreases |s|
  {
    if s == [] then [""]
    else if s[0] == '\n' then [""] + Lines(s[1..])
    else
      var rest := Lines(s[1..]);
      [[s[0]] + rest[0]] + rest[1..]
  }

  /** Joining the lines with line breaks gives the text back. */
  lemma {:induction false} JoinLines(s: string)
    ensures Join(Lines(s), "\n") == s
    decreases |s|
  {
    if s != [] {
      var rest := Lines(s[1..]);
      JoinLines(s[1..]);
      if s[0] == '\n' {
        assert Lines(s)[1..] == rest;
      } else if |rest| > 1 {
        var lines := Lines(s);
        assert lines[1..] == rest[1..];
        calc {
          Join(lines, "\n");
          ([s[0]] + rest[0]) + "\n" + Join(rest[1..], "\n");
          { AppendAssoc([s[0]] + rest[0], "\n", Join(rest[1..], "\n")); }
          ([s[0]] + rest[0]) + ("\n" + Join(rest[1..], "\n"));
          { AppendAssoc([s[0]], rest[0], "\n" + Join(rest[1..], "\n"));
            AppendAssoc(rest[0], "\n", Join(rest[1..], "\n")); }
          [s[0]] + Join(rest, "\n");
        }
      }
    }
  }

  /** Text without a line break joins the first line of what follows it. */
  lemma {:induction false} LinesOfPrefixed(x: string, y: string)
    requires '\n' !in x
    ensures Lines(x + y) == [x + Lines(y)[0]] + Lines(y)[1..]
    decreases |x|
  {
    if x == [] {
      assert x + y == y;
      assert x + Lines(y)[0] == Lines(y)[0];
      assert Lines(y) == [Lines(y)[0]] + Lines(y)[1..];
    } else {
      assert (x + y)[0] == x[0];
      assert (x + y)[1..] == x[1..] + y;
      LinesOfPrefixed(x[1..], y);
      AppendAssoc([x[0]], x[1..], Lines(y)[0]);
      assert [x[0]] + x[1..] == x;
    }
  }

  /** Text without a line break is a single line. */
  lemma LinesOfLine(x: string)
    requires '\n' !in x
    ensures Lines(x) == [x]
  {
    LinesOfPrefixed(x, "");
    assert x + "" == x;
  }

  /** A line break ends the line of the text before it. */
  lemma LinesOfBreakAfter(x: string, y: string)
    requires '\n' !in x
    ensures Lines(x + "\n" + y) == [x] + Lines(y)
  {
    AppendAssoc(x, "\n", y);
    LinesOfPrefixed(x, "\n" + y);
    assert ("\n" + y)[1..] == y;
    assert x + "" == x;
  }

  /** The lines of a concatenation from the lines of its two parts: the last
      line of the first part and the first line of the second run together. */
  function Glue(lx: seq<string>, ly: seq<string>): (r: seq<string>)
    requires |lx| >= 1 && |ly| >= 1
    ensures |r| == |lx| + |ly| - 1
  {
    lx[..|lx| - 1] + [lx[|lx| - 1] + ly[0]] + ly[1..]
  }

  /** Splitting a concatenation keeps every line break of both parts. */
  lemma {:induction false} LinesAppend(x: string, y: string)
    ensures Lines(x + y) == Glue(Lines(x), Lines(y))
    decreases |x|
  {
    var ly := Lines(y);
    if x == [] {
      assert x + y == y;
      assert "" + ly[0] == ly[0];
      assert ly == [ly[0]] + ly[1..];
    } else {
      assert (x + y)[0] == x[0];
      assert (x + y)[1..] == x[1..] + y;
      LinesAppend(x[1..], y);
      var lx := Lines(x[1..]);
      if x[0] == '\n' {
        LinesAppendBreak(lx, ly);
      } else {
        LinesAppendChar(x[0], lx, ly);
      }
    }
  }

  lemma LinesAppendBreak(lx: seq<string>, ly: seq<string>)
    requires |lx| >= 1 && |ly| >= 1
    ensures [""] + Glue(lx, ly) == Glue([""] + lx, ly)
  {
    var l := [""] + lx;
    assert l[..|l| - 1] == [""] + lx[..|lx| - 1];
  }

  lemma LinesAppendChar(c: char, lx: seq<string>, ly: seq<string>)
    requires |lx| >= 1 && |ly| >= 1
    ensures var r := Glue(lx, ly); [[c] + r[0]] + r[1..] == Glue([[c] + lx[0]] + lx[1..], ly)
  {
    var r := Glue(lx, ly);
    var l := [[c] + lx[0]] + lx[1..];
    if |lx| == 1 {
      AppendAssoc([c], lx[0], ly[0]);
      assert r[1..] == ly[1..];
    } else {
      assert r[0] == lx[0];
      assert r[1..] == lx[1..|lx| - 1] + [lx[|lx| - 1] + ly[0]] + ly[1..];
      assert l[..|l| - 1] == [[c] + lx[0]] + lx[1..|lx| - 1];
    }
  }

  /** `f` applied to each name, in order. */
  function MapNames(props: seq<string>, f: string -> string): (r: seq<string>)
    ensures |r| == |props|
    ensures forall i :: 0 <= i < |props| ==> r[i] == f(props[i])
    decreases |props|
  {
    if props == [] then [] else [f(props[0])] + MapNames(props[1..], f)
  }

  /** Fragments that each start a new line render one line per name, in order,
      after the (empty) line on which the snippet starts. */
  lemma {:induction false} LinesOfEntries(props: seq<string>, fragment: string -> string, line: string -> string)
    requires forall p :: fragment(p) == "\n" + line(p)
    requires forall i :: 0 <= i < |props| ==> '\n' !in line(props[i])
    ensures Lines(ConcatMap(props, fragment)) == [""] + MapNames(props, line)
    decreases |props|
  {
    if props != [] {
      var rest := ConcatMap(props[1..], fragment);
      LinesOfEntries(props[1..], fragment, line);
      LinesOfPrefixed(line(props[0]), rest);
      var s := "\n" + (line(props[0]) + rest);
      assert ConcatMap(props, fragment) == s by {
        AppendAssoc("\n", line(props[0]), rest);
      }
      assert s[1..] == line(props[0]) + rest;
      assert Lines(s) == [""] + Lines(line(props[0]) + rest);
      assert line(props[0]) + "" == line(props[0]);
    }
  }

  // ---------------------------------------------------------------------------
  // insertTypesProps (index.js:36-46)

  /** One member of the `Props` interface. */
  function TypeLine(p: string): (r: string)
    ensures '\n' !in p ==> '\n' !in r
  {
    "    " + p + ": /* TYPE */"
  }

  /** The fragment `"\n    " + curr + ": /* TYPE */"` of the types fold. */
  function TypeEntry(p: string): (r: string)
    ensures r == "\n" + TypeLine(p)
  {
    "\n    " + p + ": /* TYPE */"
  }

  /** The members of the `Props` interface, one entry for each name. */
  function InsertTypesProps(props: seq<string>): (r: string)
    ensures r == ConcatMap(props, TypeEntry)
  {
    if |props| > 0 then
      ReduceIsConcatMap(props, TypeEntry);
      Reduce(props, TypeEntry)
    else
      ""
  }

  /** The rendered members are the lines of the snippet: one per name, in the
      order given, each with the type placeholder. */
  lemma InsertTypesPropsLines(props: seq<string>)
    requires forall i :: 0 <= i < |props| ==> '\n' !in props[i]
    ensures Lines(InsertTypesProps(props)) == [""] + MapNames(props, TypeLine)
  {
    LinesOfEntries(props, TypeEntry, TypeLine);
  }

  /** Rendering is a homomorphism from name lists under concatenation. */
  lemma InsertTypesPropsAppend(xs: seq<string>, ys: seq<string>)
    ensures InsertTypesProps(xs + ys) == InsertTypesProps(xs) + InsertTypesProps(ys)
  {
    ConcatMapAppend(xs, ys, TypeEntry);
  }

  // ---------------------------------------------------------------------------
  // insertStoriesTemplateProps (index.js:70-80)

  /** One entry of the story's `args` object. */
  function TemplateLine(p: string): (r: string)
    ensures '\n' !in p ==> '\n' !in r
  {
    "  " + p + ": /* TYPE */,"
  }

  /** The fragment `"\n  " + curr + ": /* TYPE */,"` of the story-arguments fold. */
  function TemplateEntry(p: string): (r: string)
    ensures r == "\n" + TemplateLine(p)
  {
    "\n  " + p + ": /* TYPE */,"
  }

  /** The entries of the story's `args` object, one for each name. */
  function InsertStoriesTemplateProps(props: seq<string>): (r: string)
    ensures r == ConcatMap(props, TemplateEntry)
  {
    if |props| > 0 then
      ReduceIsConcatMap(props, TemplateEntry);
      Reduce(props, TemplateEntry)
    else
      ""
  }

  /** The rendered entries are the lines of the snippet: one per name, in order. */
  lemma InsertStoriesTemplatePropsLines(props: seq<string>)
    requires forall i :: 0 <= i < |props| ==> '\n' !in props[i]
    ensures Lines(InsertStoriesTemplateProps(props)) == [""] + MapNames(props, TemplateLine)
  {
    LinesOfEntries(props, TemplateEntry, TemplateLine);
  }

  lemma InsertStoriesTemplatePropsAppend(xs: seq<string>, ys: seq<string>)
    ensures InsertStoriesTemplateProps(xs + ys) == InsertStoriesTemplateProps(xs) + InsertStoriesTemplateProps(ys)
  {
    ConcatMapAppend(xs, ys, TemplateEntry);
  }

  // ---------------------------------------------------------------------------
  // insertStoriesArgTypesProps (index.js:48-68)

  /** `propName.slice(0, 1).toUpperCase() + propName.slice(1, propName.length)`. */
  function CapitaliseFirst(p: string): (r: string)
    ensures |r| == |p|
    ensures p != [] ==> r[0] == ToUpper(p[0])
    ensures forall i :: 1 <= i < |p| ==> r[i] == p[i]
  {
    ToUpperString(Slice(p, 0, 1)) + Slice(p, 1, |p|)
  }

  /** The `name` shown for a property: its camel-case segments separated and the
      first letter capitalised. */
  function ArgTypeLabel(p: string): (r: string)
    ensures '"' !in p ==> '"' !in r
    ensures r != [] ==> !IsWhitespace(r[0]) && !IsWhitespace(r[|r| - 1])
  {
    LabelKeepsQuotesOut(p);
    CamelPad(CapitaliseFirst(p))
  }

  /** Neither capitalising nor `camelPad` introduces a double quote. */
  lemma LabelKeepsQuotesOut(p: string)
    ensures '"' !in p ==> '"' !in CamelPad(CapitaliseFirst(p))
  {
    if '"' !in p {
      var q := CapitaliseFirst(p);
      CapitaliseFirstKeepsQuotesOut(p);
      CamelPadChars(q);
    }
  }

  lemma CapitaliseFirstKeepsQuotesOut(p: string)
    requires '"' !in p
    ensures '"' !in CapitaliseFirst(p)
  {
    var q := CapitaliseFirst(p);
    forall i | 0 <= i < |q|
      ensures q[i] != '"'
    {
      assert p[i] != '"';
    }
  }

  /** Text between the property name and the opening quote of its `name`. */
  const NameLead := ": {\n      name: "

  /** Text between the closing quote of `name` and the opening quote of `detail`. */
  const DetailLead := DescriptionLine + ControlLine + TableLead

  const DescriptionLine := ",\n      description: /* DESCRIPTION */"
  const ControlLine := ",\n      control: /* CONTROL */"
  const TableLead := TableOpen + TableDetail
  const TableOpen := ",\n      table: { type: { "
  const TableDetail := "summary: /* TYPE */, detail: "

  /** Text after the closing quote of `detail`. */
  const BlockClose := " } },\n    },"

  /** `x` between double quotes. */
  function Quoted(x: string): (r: string)
    ensures |r| == |x| + 2 && r[0] == '"' && r[|r| - 1] == '"'
    ensures r[1..|r| - 1] == x
  {
    "\"" + x + "\""
  }

  /** `fillArgTypeTemplate`: the `argTypes` entry of one property, whose `name` is
      its label and whose table `detail` is the name itself. */
  function FillArgTypeTemplate(p: string): (r: string)
    ensures |r| > |p|
    ensures '"' !in p ==> QuotedFields(r) == [ArgTypeLabel(p), p]
  {
    ArgTypeBlockFields(p);
    "  " + p + NameLead + Quoted(ArgTypeLabel(p)) + DetailLead + Quoted(p) + BlockClose
  }

  /** The only quoted strings of a block are its label and its property. */
  lemma ArgTypeBlockFields(p: string)
    ensures '"' !in p ==>
      QuotedFields("  " + p + NameLead + Quoted(ArgTypeLabel(p)) + DetailLead + Quoted(p) + BlockClose) == [ArgTypeLabel(p), p]
  {
    if '"' !in p {
      LeadsAreQuoteFree();
      assert '"' !in "  " + p + NameLead;
      QuotedFieldsOfTwo("  " + p + NameLead, ArgTypeLabel(p), DetailLead, p, BlockClose, "");
      AppendEmpty("  " + p + NameLead + Quoted(ArgTypeLabel(p)) + DetailLead + Quoted(p) + BlockClose);
    }
  }

  /** The fragment `"\n  " + fillArgTypeTemplate(curr)` of the arg-types fold. */
  function ArgTypesEntry(p: string): (r: string)
    ensures |r| > |p| + 3
  {
    "\n  " + FillArgTypeTemplate(p)
  }

  /** The `argTypes` entries, one for each name. */
  function InsertStoriesArgTypesProps(props: seq<string>): (r: string)
    ensures r == ConcatMap(props, ArgTypesEntry)
  {
    if |props| > 0 then
      ReduceIsConcatMap(props, ArgTypesEntry);
      Reduce(props, ArgTypesEntry)
    else
      ""
  }

  lemma InsertStoriesArgTypesPropsAppend(xs: seq<string>, ys: seq<string>)
    ensures InsertStoriesArgTypesProps(xs + ys) == InsertStoriesArgTypesProps(xs) + InsertStoriesArgTypesProps(ys)
  {
    ConcatMapAppend(xs, ys, ArgTypesEntry);
  }

  // ---------------------------------------------------------------------------
  // Reading rendered text back: double-quoted fields

  /** The position of the first double quote in `t`, or `|t|` when there is none. */
  function NextQuote(t: string): (k: nat)
    ensures k <= |t|
    ensures forall i :: 0 <= i < k ==> t[i] != '"'
    ensures k < |t| ==> t[k] == '"'
    decreases |t|
  {
    if t == [] || t[0] == '"' then 0 else 1 + NextQuote(t[1..])
  }

  /** The double-quoted strings of `s`, first to last (an unclosed quote opens no
      field). */
  function QuotedFields(s: string): (r: seq<string>)
    ensures forall i :: 0 <= i < |r| ==> '"' !in r[i]
    decreases |s|
  {
    if s == [] then []
    else if s[0] != '"' then QuotedFields(s[1..])
    else
      var k := NextQuote(s[1..]);
      if k == |s| - 1 then [] else [s[1..k + 1]] + QuotedFields(s[k + 2..])
  }

  /** Text without double quotes holds no field. */
  lemma {:induction false} QuotedFieldsSkip(x: string, y: string)
    requires '"' !in x
    ensures QuotedFields(x + y) == QuotedFields(y)
    decreases |x|
  {
    if x == [] {
      assert x + y == y;
    } else {
      assert (x + y)[0] == x[0];
      assert (x + y)[1..] == x[1..] + y;
      QuotedFieldsSkip(x[1..], y);
    }
  }

  /** A quoted string is one field. */
  lemma QuotedFieldsField(f: string, y: string)
    requires '"' !in f
    ensures QuotedFields(Quoted(f) + y) == [f] + QuotedFields(y)
  {
    var s := Quoted(f) + y;
    var t := s[1..];
    assert t == f + ("\"" + y);
    var k := NextQuote(t);
    assert t[|f|] == '"';
    assert forall i :: 0 <= i < |f| ==> t[i] == f[i];
    assert k == |f|;
    assert s[1..k + 1] == f;
    assert s[k + 2..] == y;
  }

  lemma LeadsAreQuoteFree()
    ensures '"' !in NameLead && '"' !in DetailLead && '"' !in BlockClose
  {
    QuoteFreeNameLead();
    QuoteFreeDescriptionLine();
    QuoteFreeControlLine();
    QuoteFreeTableOpen();
    QuoteFreeTableDetail();
    QuoteFreeBlockClose();
  }

  lemma QuoteFreeNameLead() ensures '"' !in NameLead {}
  lemma QuoteFreeDescriptionLine() ensures '"' !in DescriptionLine {}
  lemma QuoteFreeControlLine() ensures '"' !in ControlLine {}
  lemma QuoteFreeTableOpen() ensures '"' !in TableOpen {}
  lemma QuoteFreeTableDetail() ensures '"' !in TableDetail {}
  lemma QuoteFreeBlockClose() ensures '"' !in BlockClose {}

  lemma AppendEmpty(s: string)
    ensures s + "" == s
  {}

  /** Two quoted strings between quote-free text are two fields. */
  lemma QuotedFieldsOfTwo(a: string, f: string, b: string, g: string, c: string, y: string)
    requires '"' !in a && '"' !in f && '"' !in b && '"' !in g && '"' !in c
    ensures QuotedFields(a + Quoted(f) + b + Quoted(g) + c + y) == [f, g] + QuotedFields(y)
  {
    var s4 := c + y;
    var s3 := Quoted(g) + s4;
    var s2 := b + s3;
    var s1 := Quoted(f) + s2;
    assert a + Quoted(f) + b + Quoted(g) + c + y == a + s1;
    QuotedFieldsSkip(a, s1);
    QuotedFieldsField(f, s2);
    QuotedFieldsSkip(b, s3);
    QuotedFieldsField(g, s4);
    QuotedFieldsSkip(c, y);
  }

  lemma ArgTypesEntryShape(p: string, y: string)
    ensures ArgTypesEntry(p) + y
         == ("\n  " + "  " + p + NameLead) + Quoted(ArgTypeLabel(p)) + DetailLead + Quoted(p) + BlockClose + y
  {
    var nl, ql, qp := "\n  ", Quoted(ArgTypeLabel(p)), Quoted(p);
    calc {
      nl + ("  " + p + NameLead + ql + DetailLead + qp + BlockClose);
      { AppendAssoc(nl, "  " + p + NameLead + ql + DetailLead + qp, BlockClose); }
      nl + ("  " + p + NameLead + ql + DetailLead + qp) + BlockClose;
      { AppendAssoc(nl, "  " + p + NameLead + ql + DetailLead, qp); }
      nl + ("  " + p + NameLead + ql + DetailLead) + qp + BlockClose;
      { AppendAssoc(nl, "  " + p + NameLead + ql, DetailLead); }
      nl + ("  " + p + NameLead + ql) + DetailLead + qp + BlockClose;
      { AppendAssoc(nl, "  " + p + NameLead, ql); }
      nl + ("  " + p + NameLead) + ql + DetailLead + qp + BlockClose;
      { AppendAssoc(nl, "  " + p, NameLead); }
      nl + ("  " + p) + NameLead + ql + DetailLead + qp + BlockClose;
      { AppendAssoc(nl, "  ", p); }
      nl + "  " + p + NameLead + ql + DetailLead + qp + BlockClose;
    }
  }

  /** The fields of one `argTypes` entry are its `name` and its `detail`. */
  lemma ArgTypesEntryFields(p: string, y: string)
    requires '"' !in p
    ensures QuotedFields(ArgTypesEntry(p) + y) == [ArgTypeLabel(p), p] + QuotedFields(y)
  {
    LeadsAreQuoteFree();
    ArgTypesEntryShape(p, y);
    assert '"' !in "\n  " + "  " + p + NameLead;
    QuotedFieldsOfTwo("\n  " + "  " + p + NameLead, ArgTypeLabel(p), DetailLead, p, BlockClose, y);
  }

  /** For each name `p` in order, the two fields `name(p)` and `p`. */
  function FieldPairs(props: seq<string>, name: string -> string): (r: seq<string>)
    ensures |r| == 2 * |props|
    decreases |props|
  {
    if props == [] then []
    else [name(props[0]), props[0]] + FieldPairs(props[1..], name)
  }

  /** Name `i` contributes fields `2 * i` and `2 * i + 1`. */
  lemma {:induction false} FieldPairsAt(props: seq<string>, name: string -> string, i: nat)
    requires i < |props|
    ensures FieldPairs(props, name)[2 * i] == name(props[i])
    ensures FieldPairs(props, name)[2 * i + 1] == props[i]
    decreases i
  {
    if i > 0 {
      FieldPairsAt(props[1..], name, i - 1);
    }
  }

  /** The `name` and `detail` of each property, in order. */
  function ArgTypeFields(props: seq<string>): (r: seq<string>)
    ensures |r| == 2 * |props|
    ensures forall i :: 0 <= i < |props| ==> r[2 * i] == ArgTypeLabel(props[i]) && r[2 * i + 1] == props[i]
  {
    var r := FieldPairs(props, ArgTypeLabel);
    forall i | 0 <= i < |props|
      ensures r[2 * i] == ArgTypeLabel(props[i]) && r[2 * i + 1] == props[i]
    {
      FieldPairsAt(props, ArgTypeLabel, i);
    }
    r
  }

  /** Reading the quoted fields of the rendered `argTypes` entries back gives one
      entry per property, in order, each named by the property's label and
      detailed by the property itself. */
  lemma {:induction false} InsertStoriesArgTypesPropsFields(props: seq<string>)
    requires forall i :: 0 <= i < |props| ==> '"' !in props[i]
    ensures QuotedFields(InsertStoriesArgTypesProps(props)) == ArgTypeFields(props)
    decreases |props|
  {
    if props != [] {
      InsertStoriesArgTypesPropsFields(props[1..]);
      ArgTypesEntryFields(props[0], InsertStoriesArgTypesProps(props[1..]));
      assert ArgTypeFields(props) == [ArgTypeLabel(props[0]), props[0]] + ArgTypeFields(props[1..]);
    }
  }
}
