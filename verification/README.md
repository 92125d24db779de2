# A verified model of a Python documentation generator's core

This project models the pure core of a documentation generator that reads
Python sources and writes Markdown and Gherkin files. It covers five parts:

- **The docstring parser** (`DocstringParser`):
  - cleaning: one blank first and last line dropped, common indentation removed;
  - splitting into a description and named sections, in the Google, NumPy
    and reStructuredText styles;
  - interpreting each section as parameters, returns, raises or examples.
- **The source structure extractor** (`CodeParser`), over an abstract
  syntax tree:
  - the five renderers of names, attributes, annotations, default values
    and decorators;
  - the parameter list of a function;
  - function and method records with their flags;
  - the two passes of `parse`: register every class, then resolve
    inheritance.
- **The inheritance resolver** (`_resolve_inheritance`, `_calculate_mro`):
  - a recursion over a heap of class records and a registry from class
    name to heap index;
  - it fills in each class's inheritance chain, its inherited methods
    filed by base, the `overrides` tags of its own methods, and its
    method resolution order.
- **The Gherkin generator**:
  - its docstring digest and feature name;
  - the feature-file template, line by line;
  - the metadata it reports, including the scenario count.
- **The ignore rule** of `FileProcessor.should_ignore`.

## Modules

Every module is a Dafny module of its own file.

| module | models |
|---|---|
| `Common` | `Option`, and Python dictionaries as ordered association lists (`d[k] = v` replaces in place) |
| `Text` | the `str` methods the code uses: `strip`, `splitlines`, `split`, `join`, `find`, `lower` |
| `Cleaning` | `_clean_docstring` |
| `DocTypes` | styles, and the parameter, returns and raises records |
| `Sections` | the three section splitters, as one splitter over classified lines |
| `Entries` | the section interpreters for parameters, returns, raises and examples |
| `Docstrings` | `DocstringParser.parse` and the three dispatchers |
| `Syntax` | the syntax tree and the five renderers |
| `Extractor` | `_get_function_params`, `_parse_function`, the method part of `_parse_class` |
| `CodeParser` | `CodeParser.parse` after `ast.parse`, `_parse_class`, the class registry |
| `Inheritance` | `_resolve_inheritance`, `_calculate_mro` |
| `Gherkin` | `_parse_docstring`, `_generate_feature_name` |
| `Feature` | `_generate_gherkin_content`, `_generate_metadata`, `make_gherkins` |
| `Ignore` | `FileProcessor.__init__` and `should_ignore` |

## Behaviours the model mirrors

- **Where the design description and the code disagree, the model follows
  the code.** The description says an examples section may hold several
  blocks. In the code, a block never ends once it has started
  (utils/parser.py:664-666). So a section yields no block or exactly one,
  which runs to the end of the section (`Entries.ExamplesSingleBlock`).
- **reStructuredText fields.** A field's section name is its whole field
  text, so `:param x:` is named `param x`. Such a name matches none of the
  dispatch names. Every parameter and exception that does come out is
  therefore unnamed (`Docstrings.ParseRestUnnamed`).
- **NumPy underline.** The `i += 1` meant to skip a NumPy underline does
  nothing inside the `enumerate` loop. The underline stays as the first
  line of the section's content (`Sections.NumpyUnderlineIsContent`).
- **Cleaning is not idempotent.** Only one leading blank line is dropped,
  so cleaning `"\n\nabc"` again changes it (`Cleaning.CleanTwiceDiffers`).
- **Inheritance.**
  - A declared base is appended to the chain even when it is already there
    (`Inheritance.BaseStepRepeats`).
  - The `overrides` tag of a method comes from the last base that declares
    that method (`Inheritance.ResolveOverrides`).
  - A method that several bases declare and the class does not define is
    filed under each of those bases (`Inheritance.ResolveFiles`).
- **Rendering.** Default values are rendered without escaping
  (`Syntax.DefaultTextNotInjective`). `Dict[str, int]` is rendered as
  `Dict[(str, int)]` (`Syntax.DictAnnotation`).
- **Numbers.** Python's unbounded integers are Dafny's `int`. Nothing in
  the core wraps around.

## Model

| member | source | states |
|---|---|---|
| Common.FindKey | utils/parser.py:1032-1033 | the first position holding a key; `None` exactly when the key is absent |
| Common.Put | utils/parser.py:145-146 | `d[k] = v` keeps the key order when `k` is present, and otherwise appends the pair |
| Common.PutGet | utils/parser.py:740 | after `d[k] = v`, looking up `k` gives `v`, and every other key gives what it gave before |
| Common.PutUnique | utils/parser.py:155-156 | assignment never introduces a duplicate key |
| Common.PutKeySet | utils/parser.py:155-156 | assignment adds its key to the key set and nothing else |
| Text.StripFacts | utils/parser.py:57 | `strip()` is the slice between the leading and trailing whitespace; it is empty exactly when the text is blank |
| Text.StripOfStripped | utils/parser.py:57 | stripping twice is stripping once |
| Text.SplitOnce | utils/gherkin_generator.py:207-210 | `split(':', 1)` splits at the first occurrence of the separator, so the text is rebuilt from the parts; `None` when the separator is absent |
| Text.SplitLinesOfJoin | utils/parser.py:85 | `splitlines()` undoes a `'\n'.join` of break-free lines whose last line is not empty |
| Text.JoinSplitOn | utils/gherkin_generator.py:173 | joining the pieces of `split(c)` with `c` gives back the text |
| Text.WordsOfJoin | utils/gherkin_generator.py:240-241 | `split()` undoes `' '.join` on non-empty words without whitespace |
| Cleaning.TrimBlankEnds | utils/parser.py:87-91 | at most one blank first line and one blank last line are dropped; the rest is kept in order |
| Cleaning.MinIndent | utils/parser.py:94-95 | the smallest indentation of a non-blank line, attained by one; 0 when every line is blank |
| Cleaning.DropIndent | utils/parser.py:98 | `line[m:]`: removes at most `m` leading characters, exactly `m` when the line is that long |
| Cleaning.DedentRemovesOnlyIndent | utils/parser.py:93-98 | only whitespace is removed; a non-blank line loses exactly the minimum indent; blankness is kept |
| Cleaning.DedentReachesColumnZero | utils/parser.py:93-98 | after dedenting, some non-blank line starts at column 0 |
| Cleaning.DedentIdempotent | utils/parser.py:93-98 | dedenting dedented lines changes nothing |
| Cleaning.CleanLinesOfClean | utils/parser.py:85-98 | lines with non-blank ends and no common indent are left unchanged |
| Cleaning.CleanTwiceDiffers | utils/parser.py:87-89 | cleaning is not idempotent: `"\n\nabc"` cleans to `"\nabc"`, which cleans to `"abc"` |
| DocTypes.StyleOf | utils/parser.py:65-70 | the style names `google`, `numpy` and `rest` select their parsers; any other name selects none |
| Sections.Preamble | utils/parser.py:138-152 | the body lines before the first header, in order |
| Sections.RunKeys | utils/parser.py:142-156 | the splitter's keys are the earlier keys plus every header name, with no duplicates |
| Sections.SplitKeys | utils/parser.py:121-158 | the section dictionary's keys are exactly the non-empty header names, each once |
| Sections.SplitDescription | utils/parser.py:121-158 | the description is every body line read while no named section is open, joined with newlines; a header with an empty name sends the lines after it back to the description |
| Sections.SplitDescriptionNamed | utils/parser.py:151-158 | when every header has a name, the description is the lines before the first header, joined with newlines |
| Sections.SplitWithoutHeaders | utils/parser.py:121-158 | without headers there are no sections, and the description is the whole text |
| Sections.SplitSectionContent | utils/parser.py:142-156 | the last header of a name owns its opening text plus the lines up to the next header |
| Sections.RunKeepsOther | utils/parser.py:142-156 | a section no later header names keeps its content |
| Sections.GoogleKind | utils/parser.py:142-148 | a line is a Google header iff it is non-blank, ends with `:` after strip, and does not start with four spaces |
| Sections.NumpyKind | utils/parser.py:182-191 | a line opens a NumPy section iff it is not last, is non-blank, and the next line is an underline |
| Sections.RestKind | utils/parser.py:226-237 | a reStructuredText field line opens a section named by its stripped field text, with the rest of the line as its first content |
| Sections.SplitSections | utils/parser.py:100-118 | an unrecognised style leaves the text whole and has no sections |
| Sections.NumpyUnderlineIsContent | utils/parser.py:182-192 | the underline below a NumPy header starts that section's content |
| Entries.GoogleParams | utils/parser.py:308-375 | every Google parameter has a name and no type |
| Entries.GoogleParamsNamed | utils/parser.py:335-372 | the parameters are named by the colon lines in order; with none and `param1` in the text, the three placeholders come back |
| Entries.GoogleParamsEntries | utils/parser.py:308-375 | one parameter per line with a colon and a non-blank name, in order; its description is the stripped text after the colon followed by the stripped colon-free lines below it, blank lines skipped; with none and `param1` in the text, the placeholders |
| Entries.GoogleReturns | utils/parser.py:378-407 | `None` iff the content is blank; a type iff the first line holds `:`, and then the type is the stripped text before the first colon and the description the text after it followed by the later lines, stripped; otherwise the description is the stripped content |
| Entries.GoogleRaisesFromOpeners | utils/parser.py:410-458 | every exception is named by a line that may open an entry: the first line, or a line without indentation |
| Entries.GoogleRaisesEntries | utils/parser.py:410-458 | one exception per opening line (the first non-blank line, then each unindented one) with a non-empty name and some description; the description is the text after its colon and the stripped indented lines below, in order |
| Entries.NumpyParamsHeads | utils/parser.py:461-513 | the NumPy parameters are the unindented lines, in order, each split into a name and an optional type |
| Entries.NumpyParamsEntries | utils/parser.py:461-513 | one parameter per unindented non-blank line, split at ` : ` into name and type; its description is the stripped lines below it up to the next unindented line, joined and stripped |
| Entries.NumpyHeadNamed | utils/parser.py:485-495 | an unindented non-empty line always gives a named parameter |
| Entries.NumpyReturns | utils/parser.py:516-546 | `None` iff the content is blank; a type iff the first line holds ` : `, and then the type is the stripped text after the first ` : ` and the description is the later lines |
| Entries.NumpyRaisesTypes | utils/parser.py:549-592 | the NumPy exception types are the unindented lines, in order |
| Entries.NumpyRaisesEntries | utils/parser.py:549-592 | one exception per unindented non-blank line, typed by that stripped line; its description is the stripped lines below it up to the next unindented line, joined and stripped |
| Entries.FieldArgument | utils/parser.py:606-607 | the last word of a field of several words, and then never empty; otherwise empty |
| Entries.FieldArgumentOfWord | utils/parser.py:606-607 | a one-word field has no argument |
| Entries.RestParam | utils/parser.py:595-622 | the name is the field's argument; with a type, the description is the stripped text after the first colon; without one, the content untouched |
| Entries.RestParamType | utils/parser.py:609-616 | there is a type iff the content has a colon with non-blank text before it, and then the type is that stripped text |
| Entries.RestRaise | utils/parser.py:625-642 | the type is the field's argument and the description is the stripped content |
| Entries.ExampleRunFromIdle | utils/parser.py:659-677 | the scan stays idle until the first line that starts an example, and from there keeps every line |
| Entries.ExamplesSingleBlock | utils/parser.py:645-683 | no block, or one block running from the first example line to the end of the section |
| Docstrings.RoleOf | utils/parser.py:249-305 | a section's role is decided by its lower-cased name among the style's names; an unknown style has none |
| Docstrings.Parse | utils/parser.py:26-72 | `None` or `""` gives the empty result; the description is stripped; an unknown style gives the cleaned, stripped text and nothing else |
| Docstrings.ApplyAllKeepsDescription | utils/parser.py:56-70 | the section interpreters never touch the description |
| Docstrings.ApplyAllUnrecognized | utils/parser.py:64-70 | under an unknown style no section changes the result |
| Docstrings.LastReturnsWins | utils/parser.py:264-265 | the returns entry comes from the last section with a returns name, or stays as it was |
| Docstrings.LastParamsWins | utils/parser.py:260-262 | for Google and NumPy, the parameters come from the last parameter section |
| Docstrings.LastRaisesWins | utils/parser.py:266-267 | for Google and NumPy, the exceptions come from the last raises section |
| Docstrings.LastExamplesWins | utils/parser.py:268-269 | the examples come from the last examples section |
| Docstrings.RestFieldsAccumulate | utils/parser.py:297-303 | reStructuredText parameters and exceptions are appended, one per field section, in order |
| Docstrings.RestParamsUnnamed | utils/parser.py:298-303 | every reStructuredText parameter and exception comes out unnamed |
| Docstrings.ParseRestUnnamed | utils/parser.py:289-305 | the whole reStructuredText parse gives only unnamed parameters and exceptions |
| Syntax.DottedRenderersAgree | utils/parser.py:891-1007 | on a dotted name, all five renderers give the names joined with `.` |
| Syntax.DefaultTextNotInjective | utils/parser.py:951-957 | two different tuples render to the same default text |
| Syntax.DictAnnotation | utils/parser.py:904-910 | `Dict[str, int]` is rendered `Dict[(str, int)]` |
| Extractor.SetDefaultsSpec | utils/parser.py:863-869 | the defaults go to the last parameters, right-aligned; no other parameter changes |
| Extractor.FunctionParams | utils/parser.py:837-889 | one record per positional argument with its name and annotation; a default exactly for the last `len(defaults)` arguments; then `*args` and `**kwargs` |
| Extractor.AsWrittenFailsWhen | utils/parser.py:863-869 | the code as written fails exactly when a default's index is below minus the number of parameters |
| Extractor.ParamsAsWrittenOrCrash | utils/parser.py:863-869 | as written, the code fails iff there are more than twice as many defaults as ordinary arguments; otherwise its misplaced writes are overwritten and it returns the corrected list |
| Extractor.PositionalOnlyDefaultCrashes | utils/parser.py:864-869 | `def f(x=0, /)` is valid Python, but the code as written fails on it |
| Extractor.HasNameDecorator | utils/parser.py:822-824 | a flag holds iff a bare name with that identifier is among the decorators |
| Extractor.ParseFunction | utils/parser.py:757-785 | keeps the name; never async and never a method; a property iff decorated with the bare name `property`; the docstring is parsed |
| Extractor.ParseMethod | utils/parser.py:810-826 | a method is special iff its name is a dunder, and static, class or property iff it has the bare-name decorator |
| CodeParser.Init | utils/parser.py:691-693 | a new parser has an empty registry |
| CodeParser.ParseClass | utils/parser.py:787-835 | keeps name and line; one base per declared base, a dotted base rendered as its path; one method per function in the body; unresolved |
| CodeParser.ClassDefs | utils/parser.py:735-736 | the module's class definitions, and only those |
| CodeParser.RegisterOne | utils/parser.py:737-740 | a class is appended to the heap and its name now finds it; no other name changes |
| CodeParser.RegisterGet | utils/parser.py:735-740 | after the first pass, a name finds the last class of that name, or what it found before |
| CodeParser.ParseModule | utils/parser.py:695-755 | no tree gives the empty result; otherwise one class per class definition and one function per function definition; a module docstring is parsed when it is non-empty |
| CodeParser.ResolveAllOk | utils/parser.py:747-750 | resolving in turn keeps the inheritance invariant, and starts every class with non-trivial bases |
| CodeParser.ParseModuleOk | utils/parser.py:695-755 | a parse keeps the parser state valid and never forgets a registered name |
| CodeParser.ParseModuleFrame | utils/parser.py:695-755 | classes of earlier parses keep their shape; those already resolved are untouched |
| CodeParser.ParseModuleUnresolved | utils/parser.py:734-745 | without resolution, the heap is the earlier dictionaries, untouched, followed by the module's parsed class definitions in order |
| CodeParser.ParseModuleResolves | utils/parser.py:747-750 | with resolution, every new class with non-trivial bases has been resolved |
| Inheritance.SetOverride | utils/parser.py:1059-1061 | the tag goes on the last method with that name, which the by-name dictionary keeps |
| Inheritance.Absorb | utils/parser.py:1031-1098 | absorbing a base keeps the class's name, bases, methods' names and MRO |
| Inheritance.Resolve | utils/parser.py:1009-1102 | terminates; a class with trivial bases is left alone; otherwise it is started, and the set of classes not yet started shrinks |
| Inheritance.ResolveOk | utils/parser.py:1024-1098 | no inherited list holds a locally defined name; each copy is filed under its source; skipped dunders are never copied; classes not involved are untouched |
| Inheritance.ExtendChainMembers | utils/parser.py:1043-1046 | the extended chain holds exactly the old chain and the ancestors |
| Inheritance.ExtendChainShape | utils/parser.py:1043-1046 | the old chain is a prefix; the entries added are new and distinct |
| Inheritance.BaseStepChain | utils/parser.py:1036-1046 | the declared base is appended to the chain right after the earlier entries |
| Inheritance.BaseStepRepeats | utils/parser.py:1036 | a base already in the chain appears in it twice |
| Inheritance.AbsorbChain | utils/parser.py:1042-1046 | the chain is extended by the base's chain when the base has one |
| Inheritance.AbsorbFiles | utils/parser.py:1053-1067 | every non-skipped method of the base that the class does not define is filed under the base, so a name two bases declare is filed under both |
| Inheritance.AbsorbTags | utils/parser.py:1058-1061 | a method a base also offers is tagged with that base |
| Inheritance.InheritOwnTags | utils/parser.py:1053-1067 | a tag changes exactly on the last method of a name the base offers |
| Inheritance.ResolveOverrides | utils/parser.py:1031-1067 | after resolution, the last method of a name carries the tag of the last registered base, in declared order, whose own methods offer that name (declare a method of that name that is not a skipped special method); without such a base, or on an earlier method of the name, the tag is unchanged |
| Inheritance.ResolveFiles | utils/parser.py:1031-1067 | after resolution, a name the class does not define is filed under every registered base that offers it, so a name two bases declare is listed under both |
| Inheritance.InheritAncestorsKeepsMethods | utils/parser.py:1069-1098 | inheriting from ancestors never touches the class's own methods |
| Inheritance.InheritAncestorsGrows | utils/parser.py:1069-1098 | inheriting from ancestors only adds to the inherited lists |
| Inheritance.MroFacts | utils/parser.py:1105-1126 | the order is the name, then the bases verbatim, then the chain entries not yet listed, without repeats |
| Inheritance.ResolveMro | utils/parser.py:1100-1102 | an order is computed exactly when there is more than one base, and it is the one above |
| Inheritance.AbsorbSelfNeverFinishes | utils/parser.py:1070-1098 | as written, a class naming itself as a base keeps growing the list it walks and never finishes |
| Inheritance.AbsorbSelfFinishes | utils/parser.py:1070-1098 | walking a snapshot of the lists, the same class finishes with one extra copy |
| Gherkin.ParseDocstring | utils/gherkin_generator.py:164-171 | a missing docstring gives the empty digest |
| Gherkin.BlankDocstring | utils/gherkin_generator.py:164-226 | a docstring of whitespace only gives the empty digest too |
| Gherkin.ReadIgnoresIndent | utils/gherkin_generator.py:185-200 | indentation never changes how a line is read, so headers count at any indent |
| Gherkin.ParamReadOfStripped | utils/gherkin_generator.py:207-211 | a parameter line opens an entry iff it holds `:`, named by the stripped text before the first colon |
| Gherkin.ParamRunIsEntries | utils/gherkin_generator.py:205-215 | the loop's appends and extensions build exactly the entries opener by opener, with continuation lines added after a space |
| Gherkin.NoDescriptionAfter | utils/gherkin_generator.py:188-204 | once a header has been seen, no line goes to the description |
| Gherkin.DescriptionOfDocstring | utils/gherkin_generator.py:203-224 | the description is the non-blank stripped lines above the first header, joined by single spaces |
| Gherkin.RunReturns | utils/gherkin_generator.py:216-217 | the returns text is the returns lines joined by single spaces |
| Gherkin.RunExamples | utils/gherkin_generator.py:218-219 | one example per non-blank stripped examples line |
| Gherkin.RunRaises | utils/gherkin_generator.py:220-221 | one exception per non-blank stripped raises line |
| Gherkin.DigestBySections | utils/gherkin_generator.py:173-226 | the digest is assembled section by section from the lines each section receives |
| Gherkin.FeatureNameShape | utils/gherkin_generator.py:239-241 | a feature name has no `_` and single spaces, and its words are the capitalised words of the name |
| Gherkin.FeatureNameIdempotent | utils/gherkin_generator.py:239-241 | naming a feature name again changes nothing |
| Gherkin.SampleFeatureName | utils/gherkin_generator.py:239-241 | `sample_function` becomes `Sample Function` |
| Feature.CountSplit | utils/gherkin_generator.py:380 | `count` is additive over a split no occurrence straddles |
| Feature.ContentHits | utils/gherkin_generator.py:380 | the content's keyword count is the template's count plus the count in the text put into it |
| Feature.HeadFacts | utils/gherkin_generator.py:269-273 | the feature header writes no scenario keyword of its own |
| Feature.CommentsFacts | utils/gherkin_generator.py:275-280 | the comment lines write no scenario keyword of their own |
| Feature.BackgroundFacts | utils/gherkin_generator.py:282-286 | the background writes no keyword of its own, and the count in the signature is passed on to the content |
| Feature.MainFacts | utils/gherkin_generator.py:288-313 | the main scenario writes exactly one keyword |
| Feature.ErrorFacts | utils/gherkin_generator.py:315-325 | the error scenario writes one keyword when exceptions are listed, none otherwise |
| Feature.ExampleFacts | utils/gherkin_generator.py:327-341 | the outline writes one keyword when examples are listed, none otherwise |
| Feature.VerifyFacts | utils/gherkin_generator.py:343-349 | the verification scenario writes exactly one keyword |
| Feature.TemplateScenarios | utils/gherkin_generator.py:262-351 | the template writes 2 + [exceptions listed] + [examples listed] scenario keywords |
| Feature.ScenarioCountAsWritten | utils/gherkin_generator.py:380 | the reported count is the scenarios written plus the keywords in the text put into the template |
| Feature.CountExactIffInert | utils/gherkin_generator.py:380 | the reported count equals the number of scenarios iff no text put into the template holds a keyword |
| Feature.CountWhenPlain | utils/gherkin_generator.py:262-380 | with keyword-free inputs, the reported count equals the number of scenarios |
| Feature.SignatureInflatesCount | utils/gherkin_generator.py:284 | a signature holding `Scenario:` makes the reported count exceed the scenarios written |
| Feature.DefaultValueInflatesCount | utils/gherkin_generator.py:380 | a default value `'Scenario:'` in the signature inflates the count |
| Feature.DefaultPath | utils/gherkin_generator.py:383-385 | the default path is `features/`, the callable's name, `.feature` |
| Feature.MetadataOf | utils/gherkin_generator.py:353-403 | the flags hold iff their lists or the returns text are non-empty; the content length; the description's first 100 characters (all of it when shorter); the given or default path; the scenario count is the occurrences of `Scenario:` plus those of `Scenario Outline:` in the content |
| Feature.MakeGherkins | utils/gherkin_generator.py:84-112 | the feature name is the callable's name made a feature name; the content is the template filled from the parsed docstring; the metadata is `_generate_metadata` of exactly that content; the reported count is the keywords counted in that content, never below the scenarios written, and equal to them iff no inserted text holds a keyword; no docstring gives at least two scenarios and no flags |
| Feature.MakeGherkinsCount | utils/gherkin_generator.py:380 | with keyword-free inputs, the reported count is the number of scenarios the template writes |
| Ignore.NewProcessor | utils/file_processor.py:15-24 | a missing ignore list is empty |
| Ignore.Scan | utils/file_processor.py:39-47 | the loop returns true iff some ignore path covers the path |
| Ignore.ShouldIgnore | utils/file_processor.py:26-47 | a path is ignored iff it equals an ignore path or starts with one followed by `/` |
| Ignore.NothingIgnoredByDefault | utils/file_processor.py:15-47 | without ignore paths no path is ignored |
| Ignore.OrderIrrelevant | utils/file_processor.py:39-47 | only which paths are listed matters: two lists with the same members ignore the same paths |
| Ignore.IgnoresItself | utils/file_processor.py:44 | an ignore path is itself ignored |
| Ignore.IgnoresBelow | utils/file_processor.py:44 | anything below an ignore path is ignored |
| Ignore.PrefixOnlyNotCovered | utils/file_processor.py:44 | a path that only shares a text prefix with an ignore path is not covered by it |
| Ignore.SiblingNotIgnored | utils/file_processor.py:44 | `/a/bc` is not ignored by `/a/b` |
| Ignore.MoreIgnoresMonotone | utils/file_processor.py:39-47 | adding ignore paths, before or after, never un-ignores a path |
| Ignore.PrunedDirectoryIgnoresContents | utils/file_processor.py:65 | everything inside an ignored directory is ignored, so pruning the walk loses nothing |

## Left out

- Reading files, `ast.parse` and its `SyntaxError` branch (utils/parser.py:710-722). The tree is an input; a failed parse is `None` and gives the empty result.
- `ast.unparse`, which two renderers fall back to. It is a standard-library call, and it is an uninterpreted parameter here.
- The `str()` of constants other than `None`, strings, integers and booleans. A float, bytes or `...` carries its text as given.
- Logging calls. They have no effect on results.
- Keyword-only arguments. The code never reads them. Positional-only arguments appear only as far as the finding below needs.
- `async def`. Only `ast.FunctionDef` nodes reach the extractor, so `is_async` is always false.
- Python's full Unicode case mapping. `lower` and `capitalize` act on ASCII letters only.
- `os.path.abspath` and `os.sep`. Paths are taken as already absolute and normalised, with `/` as separator: no trailing separator and no empty, `.` or `..` component. `abspath` consults the working directory. A path such as `/a/b/` is compared as given, where the code would first normalise it to `/a/b`.
- `find_python_files`. It is a directory walk. Only the fact that its pruning is safe is stated.
- `inspect.signature`, `inspect.getdoc` and the `callable()` check in `make_gherkins`. The name and signature are inputs, and so is the docstring found on the callable.
- `hashlib.sha256` and the timestamp in the metadata. Both lie outside the pure core.
- The Markdown generator, the writer, the command line and the top-level driver. They are template filling and I/O.
- Gherkin.ParseDocstring: its contract states only the missing-docstring case. The full digest is stated by `Gherkin.DigestBySections` and the lemmas about each section.
- Sections.SplitSections: its contract states only the unrecognised style. The splitters' behaviour is stated over classified lines by `Sections.SplitKeys`, `Sections.SplitDescription` and `Sections.SplitSectionContent`.
- Inheritance.Absorb: it walks a snapshot of each ancestor list, not the live list. On every input where the code as written finishes, the two agree; see the findings.

## Findings

| source | as written | input that shows it | evidently intended | confidence | as-written member | corrected member |
|---|---|---|---|---|---|---|
| utils/parser.py:863-869 | the defaults' offset is the number of ordinary arguments minus the number of defaults, which goes negative when positional-only parameters have defaults; a write through a negative index that stays in range is overwritten later, but one below `-len(params)` raises `IndexError` | `def f(x=0, /): pass`: one argument `x` in `posonlyargs`, none in `args`, one default | defaults belong to the last positional parameters; those beyond `args` are skipped | not executed | Extractor.PositionalOnlyDefaultCrashes | Extractor.FunctionParams |
| utils/parser.py:1070-1098 | the ancestor loop walks the live inherited list of a base; when the base is the class itself, each copy is appended to that same list, so the loop never ends | `class C: def m(self): pass`; `class B(C): pass`; `class A: pass`; `class A(B, A): pass` | walk a snapshot of the ancestor's list, so the class finishes with one extra copy | not executed | Inheritance.AbsorbSelfNeverFinishes | Inheritance.AbsorbSelfFinishes |
| utils/gherkin_generator.py:380 | `num_scenarios` counts `Scenario:` and `Scenario Outline:` in the whole content, including the callable's signature, name and docstring text | `def f(x='Scenario:'): pass` is reported with three scenarios but has two | the number of scenarios the template writes: 2 + [exceptions listed] + [examples listed] | not executed | Feature.DefaultValueInflatesCount | Feature.TemplateScenarios |
