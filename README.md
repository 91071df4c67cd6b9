# SD-Image-Organizer: a verified model of the metadata search and the sorting rule

SD-Image-Organizer sorts Stable Diffusion PNG images into `characters/<name>` and
`locations/<name>` folders. It reads the generation metadata that a parser library pulls out of
each image: nested dicts and lists holding a ComfyUI workflow. It then looks for "ShowText"
nodes whose text names a character or a location from two keyword files. When the nodes name no
character, it falls back to searching the positive prompt.

This project models the self-contained logic of that pipeline in Dafny and proves what it does:

- **`Json`**: the metadata tree.
  - Dicts are insertion-ordered entry sequences and lists are sequences.
  - Leaves are strings, integers, None and other scalars.
  - It also models the Python primitives the code uses over the tree: `d.get`, `k in d`, `d[k]`,
    and `for x in v`, which raises TypeError on a non-iterable.
  - A raised exception becomes `Err(TypeError | AttributeError | IndexError | KeyError)`.
- **`Text`**: the string operations the code relies on.
  - `str.strip()` uses Python's whitespace table.
  - `str.lower()` folds ASCII case only.
  - Also `sub in s`, `'\n'.join`, `str(n)`, and the line iteration of a text file.
- **`Workflow`**: the node filter shared by the three workflow-node functions.
  - A node is selected by its `type` and by `properties[node_key]`.
  - `widget[0]` is taken from every list-typed widget value.
  - The keyword variant matches case-insensitively.
  - The nested `for` loops are methods with loop invariants. Each is proved equal to a function
    that joins the step outputs in order, or returns the first exception raised.
- **`MetadataExtractor`**: `get_workflow_node_data` and `find_particular_keywords`. Each is
  modelled by which node lists it visits in which sections, and by the loop over the sections.
- **`MetadataTester`**: several functions from the metadata test script:
  - `find_values_in_dict` (a recursive method that accumulates values);
  - `find_value_in_dict` (a recursion with early return);
  - `get_prompt_text`;
  - the `ckpt_name`/`content` unwrapping;
  - `find_positive_prompt_data`.

  `find_values_in_dict` is checked against an independent list of every entry in the tree. Every
  value it reports is stored under the key. When no match holds the key again inside it, it
  reports every such value, in order.
- **`Organizer`**: the organizer module's own logic:
  - `load_keywords`;
  - `increment_filename`, where the file system becomes a finite set of existing paths;
  - `convert_keys_to_strings`, whose copy in the test script is the same code;
  - the destination path of `move_file_to_category`;
  - the `dirs` pruning of the directory walk, as a class whose field the method updates in place;
  - the `.png` test;
  - the routing rule of `organize_images`, which returns the moves it makes instead of making them.

## Model

| member | source | states |
|---|---|---|
| Json.Get | scripts/metadata_extractor.py:37 | `v.get(k, default)` raises AttributeError exactly on a non-dict. It gives the stored value when the key is present and the default otherwise. |
| Json.Iterate | scripts/metadata_extractor.py:36 | `for x in v` raises TypeError exactly when `v` is not a dict, list or string. A list yields its items. A dict yields the key of each entry, entry by entry. A string yields each character as a one-character string, in order. |
| Json.Lookup | scripts/metadata_extractor.py:34-36 | `d.get(k)` is present exactly when `k in d`, and then it is the value of the first entry holding `k`. |
| Text.Strip | scripts/organizer.py:16 | `line.strip()`: the result is empty or starts and ends with a non-whitespace character. The characters removed are whitespace, as `StripLeft` and `StripRight` state. |
| Text.StripLeft | scripts/organizer.py:16 | The left strip is a suffix of the string. Every character dropped is whitespace, and the result does not start with whitespace. |
| Text.StripRight | scripts/organizer.py:16 | The right strip is a prefix of the string. Every character dropped is whitespace, and the result does not end with whitespace. |
| Text.StripIdempotent | scripts/organizer.py:16 | Stripping a stripped line changes nothing. |
| Text.StripEmptyIff | scripts/organizer.py:16 | A line strips to `""`, and so is skipped, exactly when every character is whitespace. |
| Text.ContainsIff | scripts/metadata_extractor.py:73 | `sub in s` holds exactly when `sub` occurs at some position of `s`. |
| Text.Lower | scripts/organizer.py:37 | `s.lower()` keeps the length and leaves no upper-case ASCII letter. Every character that is not an upper-case ASCII letter is kept as it is. |
| Text.Contains | scripts/organizer.py:106 | `pat in text` can hold only when `pat` is no longer than `text`. Its positional meaning is `Text.ContainsIff`. |
| Text.LowerIdempotent | scripts/organizer.py:37 | Lower-casing twice equals lower-casing once. |
| Text.Join | scripts/tests/metadata_tester.py:116 | `sep.join(xs)` of a single piece is that piece. Its inverse is `Split`, by `SplitJoin` and `JoinSplit`. |
| Text.Split | scripts/tests/metadata_tester.py:116 | Splitting gives at least one piece, and no piece holds the separator. This is the reference inverse of the join. |
| Text.SplitJoin | scripts/tests/metadata_tester.py:116 | Splitting a `'\n'.join` of newline-free pieces at `'\n'` gives the pieces back. |
| Text.JoinSplit | scripts/tests/metadata_tester.py:116 | Joining the pieces of a split gives the string back. |
| Text.NatToString | scripts/organizer.py:22 | `str(n)` for a natural number: at least one decimal digit, and a leading '0' only for zero. |
| Text.NatToStringRoundTrip | scripts/organizer.py:22 | Reading back the digits of `str(counter)` gives the counter. |
| Text.IntToString | scripts/organizer.py:30 | `str(i)` starts with '-' exactly for a negative integer. After that sign come only decimal digits, with no leading zero, and they read back to the absolute value of `i`. |
| Text.SplitLines | scripts/organizer.py:15-16 | `for line in f`: no line is empty, and there are no lines exactly when the file is empty. |
| Text.SplitLinesShape | scripts/organizer.py:15-16 | The lines of a file concatenate to the file. Each line holds '\n' only as its last character, and every line but the last ends with '\n'. |
| Workflow.NodeMatches | scripts/metadata_extractor.py:37 | A selected node is a dict. The test raises, always AttributeError, exactly when the node is not a dict, or when its `type` matches and its `properties` entry is present but not a dict (a `null`, say). That error ends the whole filter. |
| Workflow.NodeMatchesIff | scripts/metadata_extractor.py:37 | A node is selected exactly when it is a dict with `type == node_type` and a dict `properties` holding `node_name` under `node_key`. |
| Workflow.NodeWithoutPropertiesGivesNothing | scripts/metadata_extractor.py:37-38 | A dict node without `properties` contributes nothing. |
| Workflow.OtherTypeGivesNothing | scripts/metadata_extractor.py:37 | A dict node of another type contributes nothing, whatever its properties and widgets hold. |
| Workflow.WidgetTextsAreListHeads | scripts/metadata_extractor.py:38-42 | The widgets of a selected node succeed exactly when no widget is an empty list, and a failure is IndexError. The texts are `widget[0]` of the list-typed widgets, in order; other widget values are skipped. |
| Workflow.CollectWidgetTexts | scripts/metadata_extractor.py:39-42 | The widget loop returns the widget texts, or the IndexError of the first empty list. |
| Workflow.CollectNodeTexts | scripts/metadata_extractor.py:36-42 | The node loop returns the texts of the selected nodes in node order, or the first exception raised. |
| Workflow.CollectInnerTexts | scripts/metadata_extractor.py:31-42 | The subsection loop scans the `nodes` of each dict 'workflow' entry, in entry order. |
| Workflow.CollectOuterTexts | scripts/metadata_extractor.py:45-54 | The subsection loop scans the section's own `nodes` once for each dict 'workflow' entry. |
| Workflow.ConcatOkIff | scripts/metadata_extractor.py:36-42 | Nested loops that each append or raise succeed exactly when every step succeeds. |
| Workflow.ConcatFirstFailure | scripts/metadata_extractor.py:36-42 | The exception such loops raise is the exception of the first step that raised, and all earlier steps succeeded. |
| Workflow.KeywordHitsIff | scripts/metadata_extractor.py:72-74 | A keyword is reported for a text exactly when it is listed and its lower-cased form occurs in the lower-cased text. |
| Workflow.KeywordHitsIgnoreCase | scripts/metadata_extractor.py:73 | Texts equal up to case report the same keywords. |
| Workflow.MatchKeywords | scripts/metadata_extractor.py:72-74 | The keyword loop returns the hits in keyword order. It raises AttributeError on a non-string text only when there is a keyword to test. |
| Workflow.CollectWidgetKeywords | scripts/metadata_extractor.py:69-74 | The widget loop of the keyword filter returns the hits of each widget text in widget order, or the first exception raised. |
| Workflow.CollectNodeKeywords | scripts/metadata_extractor.py:66-74 | The node loop of the keyword filter equals its specification function over the ShowText nodes. |
| Workflow.CollectOuterKeywords | scripts/metadata_extractor.py:77-88 | The subsection loop of the keyword filter scans the section's own `nodes` once for each dict 'workflow' entry. |
| Workflow.ScanAllKeywordsWithin | scripts/metadata_extractor.py:86-88 | Every reported name is one of the keywords. With no keywords, nothing is reported. |
| Workflow.ScanAllKeywordsViaTexts | scripts/metadata_extractor.py:69-74 | When all ShowText texts are strings, the keyword filter reports, text after text, the keywords each text contains, in keyword order. |
| MetadataExtractor.CollectNodeDataSection | scripts/metadata_extractor.py:30-54 | One section contributes the scan of exactly the node lists its branch visits. |
| MetadataExtractor.GetWorkflowNodeData | scripts/metadata_extractor.py:26-56 | The result is the texts of the selected nodes of every visited node list, in order, or the first exception raised. |
| MetadataExtractor.PromptSectionReadsWorkflowNodes | scripts/metadata_extractor.py:30-36 | Under 'prompt', the only list read is `section['workflow']['nodes']`. Nothing is read when that entry is missing, is not a dict, or lacks `nodes`. |
| MetadataExtractor.OtherSectionReadsOwnNodes | scripts/metadata_extractor.py:44-48 | Under any other key, the list read is the section's own `nodes`, and only when the section holds a dict 'workflow' entry. |
| MetadataExtractor.CollectKeywordSection | scripts/metadata_extractor.py:64-88 | One section contributes the keyword scan of exactly the node lists its branch visits. |
| MetadataExtractor.FindParticularKeywords | scripts/metadata_extractor.py:59-90 | The result is the keywords found in every ShowText text of every visited node list, in order, or the first exception raised. |
| MetadataExtractor.ParticularKeywordsAreListed | scripts/metadata_extractor.py:72-74 | Every name reported is in `keywords`. An empty keyword list reports nothing. |
| MetadataExtractor.NoWorkflowReportsNothing | scripts/metadata_extractor.py:63-90 | Metadata without a dict 'workflow' section, and without a dict section holding a dict 'workflow' entry, gives `[]`. |
| MetadataExtractor.ParticularKeywordsByText | scripts/metadata_extractor.py:69-74 | Output order is text order, then keyword order. A keyword found in several texts is reported once per text. |
| MetadataTester.FindAll | scripts/tests/metadata_tester.py:56-67 | `find_values_in_dict` as a function. It has no contract of its own: `FindAllMeaning` states soundness, and `FindAllComplete` and `MatchReportedWhole` state completeness and order against the entry list. |
| MetadataTester.FindValuesInDict | scripts/tests/metadata_tester.py:56-67 | The recursive accumulation returns exactly the values of the search specification `FindAll`. |
| MetadataTester.FindAllComplete | scripts/tests/metadata_tester.py:56-67 | Completeness: when no value stored under `key` holds the key again inside it, the search reports every value stored under `key`. They come in the depth-first insertion order of the independent entry list. |
| MetadataTester.MatchReportedWhole | scripts/tests/metadata_tester.py:60-63 | In any dict, an entry stored under `key` contributes exactly its value, whatever that value holds. The entries before and after it contribute their own findings around it. |
| MetadataTester.FindAllMeaning | scripts/tests/metadata_tester.py:56-67 | Every value found is stored under `key` somewhere in the tree. Nothing is found exactly when no entry anywhere has the key; this covers a non-container input. |
| MetadataTester.NestedMatchNotReported | scripts/tests/metadata_tester.py:60-63 | A two-level instance of `MatchReportedWhole`: a key nested under a match is in the entry list but is not reported, so completeness needs its precondition. |
| MetadataTester.ValuesUnder | scripts/tests/metadata_tester.py:60-61 | The reference selection over a flat entry list: never more values than entries, and each one is stored under `key` in the list. |
| MetadataTester.FindValue | scripts/tests/metadata_tester.py:40-54 | `find_value_in_dict` as written, including its nested searches with the caller's default. Its meaning is `FindValueIsFirst`, `AbsentGivesDefault`, `TopLevelMatchReturned` and `DefaultHidesLaterMatch`. |
| MetadataTester.FindValueIsFirst | scripts/tests/metadata_tester.py:40-54 | With default None and no found value None, the result is the first value `find_values_in_dict` finds, or None. |
| MetadataTester.AbsentGivesDefault | scripts/tests/metadata_tester.py:40-54 | A tree without the key gives the default. |
| MetadataTester.TopLevelMatchReturned | scripts/tests/metadata_tester.py:42-44 | With the default None, a top-level match is returned, even None, when no earlier entry holds the key anywhere. |
| MetadataTester.DefaultHidesLaterMatch | scripts/tests/metadata_tester.py:45-48 | A concrete case of `FirstEntryDecides`: with a default other than None, an earlier empty dict ends the search with the default, although the key is stored later. |
| MetadataTester.DefaultNeverNone | scripts/tests/metadata_tester.py:45-54 | With a default other than None and no None stored under the key, the search never gives None. So every nested search counts as found and ends the search. |
| MetadataTester.FirstEntryDecides | scripts/tests/metadata_tester.py:41-48 | With a default other than None, the first dict entry that is stored under the key or holds a container decides. The result is that entry's value or its nested search's result, the default included, and no later entry is searched. |
| MetadataTester.FirstItemDecides | scripts/tests/metadata_tester.py:49-53 | With a default other than None, a non-empty list gives exactly its first item's search result, and no later item is searched. |
| MetadataTester.FindValueOr | scripts/tests/metadata_tester.py:40-54 | The corrected search: it searches with None and applies the default once at the end. Its meaning is `FindValueOrIsFirst` and `FindValueOrAgrees`. |
| MetadataTester.FindValueOrIsFirst | scripts/tests/metadata_tester.py:40-54 | The corrected search gives the first found value or the default, for any default. |
| MetadataTester.FindValueOrAgrees | scripts/tests/metadata_tester.py:22-28 | With the default None, which every call passes, the corrected search equals the search as written. |
| MetadataTester.GetPromptText | scripts/tests/metadata_tester.py:114-117 | `get_prompt_text`: the prompts joined with '\n', or `""` when there are none. Its meaning is `PromptTextSplits` and `NoPromptsGiveEmptyText`. |
| MetadataTester.PromptTextSplits | scripts/tests/metadata_tester.py:114-117 | The prompt text splits at '\n' back into the newline-free prompt values, in order. |
| MetadataTester.NoPromptsGiveEmptyText | scripts/tests/metadata_tester.py:115-117 | No prompt list, or an empty one, gives `""`. |
| MetadataTester.UnwrapModel | scripts/tests/metadata_tester.py:25 | `model['content'] if isinstance(model, dict) else model`: the only exception is KeyError. |
| MetadataTester.UnwrapModels | scripts/tests/metadata_tester.py:25 | The comprehension over the found models, left to right. Its meaning is `UnwrapModelsMeaning`. |
| MetadataTester.UnwrapModelsMeaning | scripts/tests/metadata_tester.py:25 | The unwrapping succeeds exactly when every dict model holds 'content', and a failure is KeyError. It keeps one entry per model, in order: the 'content' of a dict, otherwise the model itself. |
| MetadataTester.PlainModelsUnchanged | scripts/tests/metadata_tester.py:73 | When no checkpoint value is a dict, the model names are the found values unchanged. |
| MetadataTester.CollectPromptDataSection | scripts/tests/metadata_tester.py:147-167 | One section contributes the scan of exactly the node lists its branch visits. |
| MetadataTester.FindPositivePromptData | scripts/tests/metadata_tester.py:142-169 | The result is the ShowText texts of every visited node list, in order, or the first exception raised. |
| MetadataTester.WorkflowSectionReadsOwnNodes | scripts/tests/metadata_tester.py:147-149 | Under 'workflow', the list read is the section's own `nodes`. |
| MetadataTester.OtherSectionReadsWorkflowNodes | scripts/tests/metadata_tester.py:157-161 | Under another key, the list read is `nodes` of the dict 'workflow' entry, and only when that entry holds `nodes`. |
| Organizer.LineKeyword | scripts/organizer.py:16 | One line's part of the comprehension: at most one keyword, its strip when that is not blank. |
| Organizer.LoadKeywords | scripts/organizer.py:14-17 | `load_keywords` over the lines of the file: at most one keyword per line. Which lines give keywords is `LoadKeywordsIff`. |
| Organizer.LoadKeywordsIff | scripts/organizer.py:16 | A keyword is loaded exactly when it is the non-empty strip of some line. |
| Organizer.LoadKeywordsAppend | scripts/organizer.py:16 | Keywords keep file order: two runs of lines load as the first run's keywords followed by the second's. |
| Organizer.LoadKeywordsClean | scripts/organizer.py:16 | Every keyword is non-empty and already stripped. |
| Organizer.LoadKeywordsIdempotent | scripts/organizer.py:16 | Loading the loaded keywords again changes nothing. |
| Organizer.KeywordsHaveNoNewline | scripts/organizer.py:15-16 | No keyword read from a file holds a line break. |
| Organizer.SplitExt | scripts/organizer.py:20 | `os.path.splitext`: the base and the extension put together give the path back. |
| Organizer.SplitExtShape | scripts/organizer.py:20 | The base and the extension put together give the path back. An extension is a '.' followed by no '.' and no '/'. |
| Organizer.LeadingDotIsNotExtension | scripts/organizer.py:20 | A file name whose only dot leads it, such as `.png`, has no extension. |
| Organizer.Candidate | scripts/organizer.py:22-25 | `base + "(" + str(counter) + ")" + ext`. Its properties are `CandidateInjective` and `CandidatesTaken`. |
| Organizer.CandidateInjective | scripts/organizer.py:22-25 | Different counters give different candidate names. |
| Organizer.CandidatesTaken | scripts/organizer.py:23-25 | While the first `c` candidates are all taken, `c` is at most the number of existing paths, so the loop ends. |
| Organizer.IncrementFilename | scripts/organizer.py:19-26 | The result is `base(n)ext` for some `1 <= n <= |existing| + 1` and is not an existing path. Every counter below `n` names an existing path, so `n` is the least free counter. |
| Organizer.ConvertKeys | scripts/organizer.py:28-34 | `convert_keys_to_strings` keeps the kind of every value: a dict stays a dict and a list stays a list of the same length. Its meaning is stated by the `ConvertKeys*` and `Converted*` lemmas. |
| Organizer.Insert | scripts/organizer.py:30 | Assigning into the dict being built keeps keys distinct. A new key goes last; an existing key keeps its place and takes the new value. |
| Organizer.ConvertItems | scripts/organizer.py:32 | The list comprehension keeps the length and converts each item in place. |
| Organizer.ConvertKeysWellKeyed | scripts/tests/metadata_tester.py:134-140 | After conversion, every dict anywhere in the tree has string keys only, each once. |
| Organizer.ConvertKeysFixpoint | scripts/organizer.py:28-34 | A tree already keyed by distinct strings is left as it is, leaves included. |
| Organizer.ConvertKeysIdempotent | scripts/organizer.py:28-34 | Converting twice equals converting once. |
| Organizer.ConvertedKeys | scripts/organizer.py:30 | The keys of a converted dict are exactly the `str()` of the original keys. |
| Organizer.ConvertEntriesPointwise | scripts/organizer.py:30 | When no two keys have the same `str()`, every entry keeps its place, with its key as a string and its value converted. |
| Organizer.CollidingKeysMerge | scripts/organizer.py:30 | Keys `1` and `"1"` merge: the first keeps its place and the last value wins. |
| Organizer.Slug | scripts/organizer.py:37 | `name.replace(' ', '_').lower()` keeps the name's length. The rest of its shape is `SlugShape`. |
| Organizer.SlugShape | scripts/organizer.py:37 | The slug keeps the name's length, has no spaces and no upper-case letters, and keeps every other character up to case. |
| Organizer.SlugIdempotent | scripts/organizer.py:37 | A slug is its own slug. |
| Organizer.JoinPath | scripts/organizer.py:37 | In `os.path.join`, an absolute second part replaces the first. |
| Organizer.Basename | scripts/organizer.py:39 | The basename is the part of the path after its last '/', and it holds no '/'. |
| Organizer.Destination | scripts/organizer.py:37-39 | `os.path.join(os.path.join(output_dir, category, slug), basename(file))`. Its layout is `DestinationLayout`. |
| Organizer.DestinationLayout | scripts/organizer.py:37-39 | With plain directory names, the destination is `output_dir/category/slug(name)/basename(file)`. |
| Organizer.MoveDestination | scripts/organizer.py:36-41 | The destination is free. It is the plain destination when that is free; otherwise it is the least free `base(n)ext` of it. |
| Organizer.RemoveFirst | scripts/organizer.py:51 | `list.remove(x)` on a list holding `x` drops exactly one element, and it adds no name. An absent `x` leaves the length unchanged. |
| Organizer.WalkLevel.constructor | scripts/organizer.py:49 | The walk step holds the directory list it was given. |
| Organizer.WalkLevel.PruneCategoryDirs | scripts/organizer.py:50-54 | The in-place edit leaves the list with the first 'characters' removed, then the first 'locations'. |
| Organizer.RemoveFirstAbsent | scripts/organizer.py:50-54 | Removing an absent name would change nothing, so the `in` guards only avoid the ValueError. |
| Organizer.RemoveFirstDistinct | scripts/organizer.py:51 | In a list without repeats, `remove(x)` leaves exactly the other names, still without repeats. |
| Organizer.PrunedDirs | scripts/organizer.py:50-54 | The walk then enters every sub-directory except 'characters' and 'locations'. |
| Organizer.IsPng | scripts/organizer.py:57 | `file.lower().endswith('.png')`. Its case-independence is `PngIgnoresCase`. |
| Organizer.PngIgnoresCase | scripts/organizer.py:57 | The `.png` test ignores case. |
| Organizer.CollectPromptHits | scripts/organizer.py:105-107 | The fallback's keyword loop returns, in keyword-list order, the keywords some prompt contains. |
| Organizer.PromptHitsIff | scripts/organizer.py:105-107 | A keyword is a prompt hit exactly when it is listed and some prompt contains it. |
| Organizer.FirstPromptHit | scripts/organizer.py:108-111 | The first hit is the first listed keyword that some prompt contains. |
| Organizer.FallbackIsCaseSensitive | scripts/organizer.py:106 | The prompt search is case-sensitive ("alice" is not found in "Alice"), while the node filter finds it. |
| Organizer.PromptHits | scripts/organizer.py:105-107 | The fallback's found names: never more than the keywords. Their meaning is `PromptHitsIff` and `FirstPromptHit`. |
| Organizer.Fallback | scripts/organizer.py:101-119 | The prompt fallback moves the image at most once, to a character or a location. It moves only when the parse gave prompts. Its precedence is `FallbackPrecedence`. |
| Organizer.FallbackPrecedence | scripts/organizer.py:104-119 | A fallback move goes to a character exactly when some listed character occurs in a prompt; otherwise it goes to a location. The name is the first keyword of the chosen list, in list order, that some prompt contains. |
| Organizer.Route | scripts/organizer.py:78-119 | The rule as written makes at most two moves. It makes none only when the nodes named neither a character nor a location and the fallback found nothing. |
| Organizer.FirstMove | scripts/organizer.py:80-82 | The `for ...: move; break` loop moves at most once, to the first name, and moves exactly when there is a name. |
| Organizer.RouteImage | scripts/organizer.py:78-119 | The branch sequence of `organize_images` makes exactly the moves of the rule `Route`. |
| Organizer.NodeCharacterWins | scripts/organizer.py:78-82 | A character found in the nodes decides alone: one move, to the first character. |
| Organizer.RouteCanMoveTwice | scripts/organizer.py:84-119 | After a node-location move, the rule as written still consults the prompts. If the re-parse of the moved file yields a prompt naming a character, it makes a second move. |
| Organizer.RouteIntended | scripts/organizer.py:78-119 | The corrected rule makes at most one move: a node character, else a node location, else the prompt fallback. |
| Organizer.RouteIntendedIsFirstMove | scripts/organizer.py:78-119 | The corrected rule makes at most one move, and that move is the first move of the rule as written. |
| Organizer.RouteIntendedSound | scripts/organizer.py:78-119 | Every move of the corrected rule goes to a character, or to a location when no node character was found. That name comes from the nodes or is a listed keyword some prompt contains. |
| Organizer.RouteIntendedNoMove | scripts/organizer.py:78-119 | The image stays put exactly when the nodes name nothing and no listed keyword occurs in a prompt. |

## Left out

- The Tkinter interface (`scripts/gui.py`, `scripts/dark_mode.py`), `scripts/parser.py`, `scripts/config.py` and `main.py` are not part of this model. They are UI, configuration file I/O and wiring.
- `extract_metadata`, `extract_metadata_type2` and `parser_manager.parse` are calls into PIL and the parser library, which are not part of this model. Their results are parameters:
  - the metadata tree;
  - `prompts: Option<seq<string>>`, where None stands for a parse that found nothing and each string is a prompt's `value`.
- `format_metadata` depends on the parser library's objects, on `str()` of arbitrary values and on `str.title()`.
- File-system effects are left out: `os.walk`, `os.makedirs`, `shutil.move` and opening the keyword files.
  - `os.path.exists` becomes membership in a finite set of existing paths.
  - The routing returns the moves it would make instead of making them.
  - A keyword file is its text, with newline translation assumed done.
- `print` and `logging` calls are left out, including the two `print` calls at scripts/metadata_extractor.py:33,35 and the exception handlers at scripts/organizer.py:121-125. The handler at line 123 reads `prompt_info`, which is bound only once a fallback has run. A ValueError raised before any image has reached the fallback therefore raises UnboundLocalError inside the handler, which ends `organize_images`. A later ValueError logs the parameters of a previous image. Neither is modelled.
- Organizer.Route: `prompts` stands for the result of the parse at scripts/organizer.py:103. That parse runs on `file_path` after any move at line 97 has already moved the file away. The model takes it as one input, so it does not capture how the missing file changes what the parse returns.
- The end-to-end wiring is left out. The routing is modelled on its inputs: the names the node filter found, the prompts and the two keyword lists. The wiring fails as written:
  - scripts/organizer.py:68-74 passes three keyword arguments that `find_particular_keywords` does not accept (scripts/metadata_extractor.py:59), so it raises TypeError.
  - The UI and `main.py` call `organize_images` and `create_gui` with the wrong number of arguments.
- Text.Lower: folds ASCII letters only. The program's `str.lower()` also folds non-ASCII letters.
- Organizer.JoinPath, Organizer.Basename and Organizer.SplitExt follow POSIX `os.path`, with '/' as the only separator. Windows drive letters and '\\' separators are not modelled.
- Dict keys other than strings and integers are not modelled. Neither is `str()` of a float or boolean key, nor any value type beyond dict, list, string, integer, None and an opaque scalar.
- Python's `None` is the `Null` value. Python compares a number equal to a string never, and this holds here too.

## Findings

| source | as written | input that shows it | evidently intended | confidence | as-written member | corrected member |
|---|---|---|---|---|---|---|
| scripts/organizer.py:84-119 | The prompt fallback at line 101 runs whenever the nodes named no character, including after a node location has already moved the image at line 97. It then re-parses the already-moved `file_path` at line 103, and a second move follows only if that parse still yields prompts. | No node character, node location "beach", character keywords ["alice"], location keywords ["beach"], and a parse at line 103 that yields the prompt "alice at the beach": a move to locations/beach, then a move attempted to characters/alice | The prompt is consulted only when the nodes named neither a character nor a location, so each image is moved at most once | not executed | Organizer.RouteCanMoveTwice (on Organizer.Route) | Organizer.RouteIntended, with Organizer.RouteIntendedIsFirstMove, Organizer.RouteIntendedSound and Organizer.RouteIntendedNoMove |
| scripts/tests/metadata_tester.py:45-53 | The nested search runs with the caller's default. A non-None default therefore counts as "found", and the first nested container without the key ends the search. | `find_value_in_dict({"a": {}, "cfg": 7}, "cfg", default=0)` gives 0, while `find_values_in_dict` finds `[7]` | The default replaces "not found" only once the whole tree has been searched | not executed | MetadataTester.DefaultHidesLaterMatch (on MetadataTester.FindValue) | MetadataTester.FindValueOr, with MetadataTester.FindValueOrIsFirst and MetadataTester.FindValueOrAgrees |

The first finding's second move needs the parse at scripts/organizer.py:103 to return prompts for
a file that line 97 has already moved away. The source text does not show what the parser does
with a missing file. Most likely it raises, and lines 124-125 log the error; a None result ends
the fallback quietly. Either way the rule as written still consults the prompt after a location
move, and the corrected rule does not. Every call in the program passes the default None, and
there the second finding does not arise (MetadataTester.FindValueOrAgrees).
