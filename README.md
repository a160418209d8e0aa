# horc: a Dafny model of the React component scaffolder

`horc` is a command-line script (`index.js`). Run as `horc Name prop1 prop2 …`, it creates the directory `./Name` unless that directory already exists. It then writes six files into it:

- `index.tsx`;
- `Name.tsx`;
- `Name.types.ts`;
- `Name.styles.ts`;
- `Name.stories.tsx`;
- `Name.test.tsx`.

Each file gets a boilerplate that is filled in with the component name and assembled from the property names. This project models that script and proves properties of the model.

The model covers:

- The command line, `process.argv.slice(2)`, as a split into the component name and the property list (`Scaffold.ParseArgs`).
- `camelPad` (module `Labels`). It turns a property name into the label shown in Storybook. Each regular-expression replacement is a left-to-right scanner that tries a match at each position and otherwise copies one character, which is what a global JavaScript replace does.
  - `SplitAcronyms` is pass 1, `([A-Z]+)([A-Z][a-z])`.
  - `SplitBoundaries(s, left, right)` is the shared scanner of passes 2 and 3.
  - `UpperFirst` is `^.` upper-cased.
  - `Trim` is `String.prototype.trim`, over the ECMAScript white-space and line-terminator code points.
- The four snippet renderers (module `Render`). Each is a function of the component name and the property list. `Array.prototype.reduce` is modelled as a left fold (`Reduce`). A right-recursive `ConcatMap` is the independent reference it is proved equal to. `String.prototype.slice` is `Slice`, with JavaScript's relative indices.
- The six boilerplates (module `Templates`), as templates: lists of literal text and holes. A hole is the component name or one of the four snippets. `Interpolate` fills the holes, so `Document(kind, name, props)` is the text the script writes. The template text is character for character that of `index.js:82-167`.
- The guarded plan (module `Scaffold`):
  - `Plan` is a pure function of the set of existing paths. It returns nothing when `./N` exists, and otherwise the directory and the six files in the order they are created.
  - `Apply` carries a plan out on a file system, modelled as a map from paths to entries. It makes the directory, then performs one `fs.appendFile` per file, in call order.
  - `Script` ties the plan to the six documents.
- Worked examples (modules `LabelExamples` and `ButtonExample`):
  - labels: `age2`, `userId`, `HTTPServer`, `ABCDef`, `Label` and `OnClick`;
  - the `Button label onClick` run, end to end.

Two of the script's behaviours at the edges are modelled as written:

- When no arguments are given, JavaScript interpolates `undefined`, so the component is called `undefined`.
- A component called `index` has its component file named `index.tsx`. Both the index and the component boilerplate are then appended to that one file (`Scaffold.IndexComponentShareAFile`). In the model's call order the index boilerplate comes first; the script's appends are asynchronous, so on a real disk they may land in either order.

## Model

| member | source | states |
|---|---|---|
| Scaffold.ParseArgs | index.js:5-9 | the name followed by the properties is the argument list; with no arguments the name is `undefined` and there are no properties |
| Scaffold.ParseArgsOfRequest | index.js:5-9 | reading back the argument list of any request gives that request |
| Labels.CamelPad | index.js:11-20 | the label never starts or ends with white space |
| Labels.CamelPadNoLetterDigit | index.js:15 | no letter is directly followed by a digit in a label |
| Labels.CamelPadNoLowerUpper | index.js:14 | no lower-case letter or digit is directly followed by a capital in a label |
| Labels.CamelPadNoAcronymBoundary | index.js:13 | no two capitals are directly followed by a lower-case letter: every acronym is set off from the capitalised word after it |
| Labels.CamelPadOnlyInsertsSpaces | index.js:11-20 | for input without white space, deleting the spaces from the label gives the input with its first letter capitalised: only spaces are inserted |
| Labels.CamelPadChars | index.js:11-20 | every character of a label is a space, a character of the input, or the upper-cased first character |
| Labels.InsertSpaces | index.js:13-15 | the three replacements of the empty string give the empty string; otherwise the result starts with the input's first character, or with a space when that character is a capital that pass 1 sets off |
| Labels.SplitAcronyms | index.js:13 | pass 1 never shortens its input, and keeps the first character unless an acronym match starting there puts a space in front |
| Labels.SplitBoundaries | index.js:14-15 | a scan never shortens its input and keeps its first character |
| Labels.SplitBoundariesSeparates | index.js:14-15 | after a scan no `left` character is directly followed by a `right` character |
| Labels.SplitBoundariesUnchanged | index.js:14-15 | a scan leaves a string without any `left`-`right` pair as it is |
| Labels.SplitBoundariesIdempotent | index.js:14-15 | running a scan a second time changes nothing |
| Labels.SplitBoundariesConcat | index.js:14-15 | a scan of `a + b` is the scan of `a` followed by the scan of `b` when no pair straddles the join |
| Labels.SplitAcronymsConcat | index.js:13 | pass 1 over `a + b` is pass 1 over `a` followed by pass 1 over `b` when `a` does not end in a capital |
| Chars.ToUpper | index.js:16-18 | `toUpperCase` on the character `/^./` matches: a lower-case ASCII letter becomes its capital, every other character is kept, and whether the character is a letter, a digit, white space or a line terminator does not change |
| Chars.ToUpperString | index.js:52 | `propName.slice(0, 1).toUpperCase()`: the result has the same length, with `ToUpper` applied at every position |
| Labels.UpperFirst | index.js:16-18 | only the first character changes; it is upper-cased unless it is a line terminator, which `.` does not match |
| Labels.Trim | index.js:19 | the result is no longer than the input and does not start or end with white space; it is empty exactly when the input is all white space |
| LabelExamples.CamelPadAge2 | index.js:15 | `age2` becomes `Age 2` |
| LabelExamples.CamelPadUserId | index.js:14 | `userId` becomes `User Id` |
| LabelExamples.CamelPadHttpServer | index.js:13 | `HTTPServer` becomes `HTTP Server` |
| LabelExamples.CamelPadAbcDef | index.js:13 | `ABCDef` becomes `ABC Def` |
| LabelExamples.CamelPadLabel | index.js:11-20 | `Label` stays `Label` |
| LabelExamples.CamelPadOnClick | index.js:14 | `OnClick` becomes `On Click` |
| Render.Reduce | index.js:25-27 | the fold of no properties is empty |
| Render.ReduceIsConcatMap | index.js:25-27 | the left fold equals the right-recursive concatenation of the fragments |
| Render.ReduceAppend | index.js:25-27 | folding `xs + ys` is folding `xs` followed by folding `ys` |
| Render.RelativeIndex | index.js:28 | a slice position is clamped to the string, and a negative one counts from the end |
| Render.Slice | index.js:28 | `String.prototype.slice` (also used at index.js:52): the result is the characters of the string from the clamped start up to the clamped end, and it is empty when the end does not come after the start |
| Render.SliceDropsLastTwo | index.js:28 | `.slice(0, -2)` removes exactly the two characters appended last |
| Render.CommaSnippetIsJoin | index.js:24-28 | for a non-empty list, the folded `p, ` snippet without its last two characters is the properties joined by `, ` |
| Render.InsertComponentProps | index.js:22-34 | with no properties the snippet is `{ className }: N.Props`; otherwise it is `{ ` + the properties joined by `, ` + `, className }: N.Props` |
| Render.JoinLines | index.js:36-46 | support for the `*Lines` lemmas, about the `Lines` helper that reads a text line by line (the source has no such helper): joining the lines of a text with line breaks gives the text back |
| Render.LinesAppend | index.js:36-46 | support for the `*Lines` lemmas, about the same `Lines` helper: the lines of `x + y` are those of `x` and `y`, with the last line of `x` glued to the first line of `y` |
| Render.InsertTypesProps | index.js:36-46 | the snippet is the concatenation of one `"\n    p: /* TYPE */"` entry per property |
| Render.InsertTypesPropsLines | index.js:36-46 | for properties without line breaks, the snippet's lines are an empty line and then one `    p: /* TYPE */` line per property, in order |
| Render.InsertTypesPropsAppend | index.js:36-46 | the snippet of `xs + ys` is the snippet of `xs` followed by that of `ys`, so no properties give the empty snippet |
| Render.InsertStoriesTemplateProps | index.js:70-80 | the snippet is the concatenation of one `"\n  p: /* TYPE */,"` entry per property |
| Render.InsertStoriesTemplatePropsLines | index.js:70-80 | for properties without line breaks, the snippet's lines are an empty line and then one `  p: /* TYPE */,` line per property, in order |
| Render.InsertStoriesTemplatePropsAppend | index.js:70-80 | the snippet of `xs + ys` is the snippet of `xs` followed by that of `ys` |
| Render.CapitaliseFirst | index.js:52 | the first character is upper-cased and the rest are kept |
| Render.ArgTypeLabel | index.js:51-53 | a quote-free property gives a quote-free label without white space at either end |
| Render.FillArgTypeTemplate | index.js:49-58 | `fillArgTypeTemplate`: the block is longer than the property, and for a property without a double quote its only quoted strings are, in order, the label `camelPad(capitalised p)` and the property itself |
| Render.InsertStoriesArgTypesProps | index.js:48-68 | the snippet is the concatenation of one `argTypes` entry per property |
| Render.InsertStoriesArgTypesPropsAppend | index.js:48-68 | the snippet of `xs + ys` is the snippet of `xs` followed by that of `ys` |
| Render.InsertStoriesArgTypesPropsFields | index.js:48-68 | for quote-free properties, the quoted fields of the snippet are, per property in order, its label `camelPad(capitalised p)` and then `p` itself: one block per property |
| Templates.InterpolateAppend | index.js:82-167 | filling a concatenation of templates is filling each and concatenating |
| Templates.InterpolateUsesOnlyItsSlots | index.js:82-167 | a filled template depends only on the values of the holes it contains |
| Templates.Document | index.js:82-167 | the text written for a kind is its template (`IndexTemplate`, `ComponentTemplate`, `TypesTemplate`, `StylesTemplate`, `StoriesTemplate` or `TestTemplate`, the six boilerplate literals) with its holes filled: it is non-empty; every one except the styles file contains the component name; the component file contains the props snippet, the types file the types snippet, and the stories file both the `argTypes` and the `args` snippets |
| Templates.ComponentWithoutProps | index.js:89-100 | without properties the component file contains `{ className }: N.Props` |
| Templates.StylesIgnoreInputs | index.js:109-116 | the styles boilerplate is the same whatever the name and properties |
| Templates.IndexIgnoresProps | index.js:82-87 | the index boilerplate does not depend on the properties |
| Templates.TestIgnoresProps | index.js:148-167 | the test boilerplate does not depend on the properties |
| Templates.TypesDocumentLines | index.js:102-107 | for a name and properties without line breaks, the types file is, line by line, `namespace N {`, `  export interface Props {`, one `    p: /* TYPE */` per property, `    className?: string`, `  }`, `}` and a final empty line |
| Scaffold.Dir | index.js:7 | the directory is `./` followed by the component name |
| Scaffold.Path | index.js:170 | `${dir}/${fileName}`: the path is the directory, then `/`, then the file name |
| Scaffold.FileName | index.js:179-184 | the index file is `index.tsx`; every other file name is the component name, a dot and a suffix |
| Scaffold.Position | index.js:179-184 | every kind of file has its place in the creation order |
| Scaffold.Plan | index.js:176-185 | the plan is empty exactly when `./N` exists; otherwise it makes `./N` and the six files of the creation order, each with its boilerplate |
| Scaffold.Script | index.js:176-185 | when `./N` exists the script does nothing; otherwise it makes `./N` and six files, and the file at each kind's place in the creation order has that kind's file name and holds that kind's document rendered from the request (with `Scaffold.Position`, which gives each kind its own place among the six, this fixes every file) |
| Scaffold.PlannedNames | index.js:179-184 | the six file names are, in order, `index.tsx`, `N.tsx`, `N.types.ts`, `N.styles.ts`, `N.stories.tsx` and `N.test.tsx` |
| Scaffold.PlanFileOrder | index.js:179-184 | a created directory receives exactly those six files, in that order |
| Scaffold.ScriptContentsNonEmpty | index.js:179-184 | every file the script writes has content |
| Scaffold.ScriptCreates | index.js:176-185 | when `./N` is missing the script creates `./N` with the six file names in creation order |
| Scaffold.NamesDistinctUnlessIndex | index.js:179-184 | the six names are pairwise distinct exactly when the component is not called `index` |
| Scaffold.AppendFile | index.js:169-174 | appending makes the path exist; a missing file gets the text, an existing file gets the text after its content, and every other path keeps its entry |
| Scaffold.Apply | index.js:176-185 | after carrying out a plan, the paths on disk are the old paths, the directory, and one path per planned file |
| Scaffold.PlanAgainAfterApply | index.js:176-185 | planning again after carrying out a plan does nothing |
| Scaffold.AppendAll | index.js:179-184 | the six `createFileWithBoilerplate` calls in order: the paths afterwards are the earlier paths and one path per file inside the directory |
| Scaffold.AppendAllWrites | index.js:169-174 | appends of distinct fresh files leave each holding exactly its text and every other entry unchanged |
| Scaffold.ApplyWritesFiles | index.js:176-185 | when `./N` and the six paths are missing and `N` is not `index`, afterwards `./N` is a directory, each of the six files holds its boilerplate, and every earlier entry is unchanged |
| Scaffold.IndexComponentShareAFile | index.js:179-180 | for a component called `index`, when the appends run in the model's call order, `./index/index.tsx` ends up holding the index boilerplate followed by the component boilerplate |
| ButtonExample.ButtonArgs | index.js:5-9 | `Button label onClick` is the component `Button` with the properties `label` and `onClick` |
| ButtonExample.ButtonLabels | index.js:48-53 | `label` is shown as `Label` and `onClick` as `On Click` |
| ButtonExample.ButtonArgTypes | index.js:48-68 | the button's `argTypes` carry, in order, the name `Label` with the detail `label` and the name `On Click` with the detail `onClick` |
| ButtonExample.ButtonScript | index.js:176-185 | on any disk without `./Button` the button's script creates `./Button` with `index.tsx`, `Button.tsx`, `Button.types.ts`, `Button.styles.ts`, `Button.stories.tsx` and `Button.test.tsx` |

## Left out

- I/O: `fs.existsSync`, `fs.mkdirSync` and `fs.appendFile` act on an explicit `Disk` value. Nothing is read from or written to a real file system.
- Asynchronous completion: `fs.appendFile` is asynchronous, and the script does not wait for one append before starting the next. The model performs the appends in call order, as if each finished before the next began. The race between the six appends, and with other processes between the existence check and `mkdirSync`, is not modelled.
- Errors: a failed append throws inside a callback; the model does not represent the exception. Appending to a path that is a directory leaves it unchanged, and `mkdirSync` always succeeds in the model.
- The `Created …` messages written with `console.log` are not modelled.
- `process.argv`: only the slice after the interpreter and the script path is modelled, as the argument list.
- `toUpperCase` is modelled for ASCII letters only. The full Unicode case mapping can change a string's length.
- Strings are sequences of characters. UTF-16 surrogate pairs, which `slice` and `.` treat as two code units, are not distinguished.
- Render.FillArgTypeTemplate: its quoted fields, the label and the property, are stated only for a property without a double quote, because a quote inside a property would make the quoted fields of the rendered block ambiguous. For other properties the contract states only that the block is longer than the property.
- Render.InsertStoriesArgTypesPropsFields and ButtonExample.ButtonArgTypes: they are stated for properties without a double quote, because a quote inside a property would make the quoted fields of the rendered text ambiguous.
- Templates.TypesDocumentLines, Render.InsertTypesPropsLines and Render.InsertStoriesTemplatePropsLines: they are stated for names and properties without a line break, so that every entry is exactly one line.
- Scaffold.IndexComponentShareAFile: it states the contents of `./index/index.tsx` for the model's call order only. The script's two appends to that file are asynchronous, so on a real disk the component boilerplate may come first.
- Scaffold.ApplyWritesFiles: it is stated for paths that do not exist yet. For an existing file, `Scaffold.AppendFile` states the append behaviour.
