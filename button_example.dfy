/** The end-to-end example of a `Button` component with the properties `label`
    and `onClick` (index.js:5-9, 48-68, 176-185). */
module ButtonExample {
  import opened Labels
  import opened LabelExamples
  import opened Render
  import opened Templates
  import opened Scaffold

  lemma ButtonArgs()
    ensures ParseArgs(["Button", "label", "onClick"]) == Request("Button", ["label", "onClick"])
  {
    assert ["Button", "label", "onClick"][1..] == ["label", "onClick"];
  }

  lemma CapitaliseLabel() ensures CapitaliseFirst("label") == "Label" {}
  lemma CapitaliseOnClick() ensures CapitaliseFirst("onClick") == "OnClick" {}

  /** `label` is shown as `Label`, `onClick` as `On Click`. */
  lemma ButtonLabels()
    ensures ArgTypeLabel("label") == "Label"
    ensures ArgTypeLabel("onClick") == "On Click"
  {
    CapitaliseLabel();
    CapitaliseOnClick();
    CamelPadLabel();
    CamelPadOnClick();
  }

  /** Two quote-free properties render to the fields of their two entries. */
  lemma FieldsOfTwo(a: string, b: string)
    requires '"' !in a && '"' !in b
    ensures QuotedFields(InsertStoriesArgTypesProps([a, b])) == [ArgTypeLabel(a), a, ArgTypeLabel(b), b]
  {
    var props := [a, b];
    assert forall i :: 0 <= i < |props| ==> '"' !in props[i];
    InsertStoriesArgTypesPropsFields(props);
    ArgTypeFieldsOfTwo(a, b);
  }

  lemma ArgTypeFieldsOfTwo(a: string, b: string)
    ensures ArgTypeFields([a, b]) == [ArgTypeLabel(a), a, ArgTypeLabel(b), b]
  {
    var r := ArgTypeFields([a, b]);
    assert r[0] == ArgTypeLabel(a) && r[1] == a && r[2] == ArgTypeLabel(b) && r[3] == b;
  }

  /** The rendered `argTypes` of the button carry, in order, the name `Label`
      with the detail `label` and the name `On Click` with the detail `onClick`. */
  lemma ButtonArgTypes()
    ensures QuotedFields(InsertStoriesArgTypesProps(["label", "onClick"])) == ["Label", "label", "On Click", "onClick"]
  {
    FieldsOfTwo("label", "onClick");
    ButtonLabels();
  }

  lemma ButtonNames()
    ensures Dir("Button") == "./Button"
    ensures NamesFor(Order, "Button") == ["index.tsx", "Button.tsx", "Button.types.ts", "Button.styles.ts", "Button.stories.tsx", "Button.test.tsx"]
  {
    assert "./" + "Button" == "./Button";
    assert "Button" + ".tsx" == "Button.tsx";
    assert "Button" + ".types.ts" == "Button.types.ts";
    assert "Button" + ".styles.ts" == "Button.styles.ts";
    assert "Button" + ".stories.tsx" == "Button.stories.tsx";
    assert "Button" + ".test.tsx" == "Button.test.tsx";
    PlannedNames("Button");
  }

  /** On a disk without `./Button` the button's script creates `./Button` with
      its six files. */
  lemma ButtonScript(existing: set<string>)
    requires "./Button" !in existing
    ensures var s := Script(existing, ParseArgs(["Button", "label", "onClick"]));
      && s.Some?
      && s.value.dir == "./Button"
      && NamesOf(s.value.files) == ["index.tsx", "Button.tsx", "Button.types.ts", "Button.styles.ts", "Button.stories.tsx", "Button.test.tsx"]
  {
    ButtonArgs();
    ButtonNames();
    ScriptCreates(existing, Request("Button", ["label", "onClick"]));
  }
}
