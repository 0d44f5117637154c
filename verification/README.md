# Easy Project Export — a verified model of the export engine

This project models the export engine of the VS Code extension's `ProjectExporter`
(`src/extension.ts`) in Dafny, and proves properties of that model. The engine:

- walks the workspace, keeping or excluding each entry by a fixed list of rules: the
  current output files, files that look like earlier exports, hidden files, and the
  user's glob-like exclude patterns;
- builds a sorted project tree, with directories first and then names in order;
- computes the statistics of that tree and draws it with box-drawing characters;
- builds the table of contents with its anchors;
- writes every file either as a block of text (plain text or markdown) or as a line
  in its directory's "binary/excluded" list;
- reports each file's encoding.

The model also covers the two small message managers: the localisation lookup with
its fallback chain, and the notification filter.

The file system is a value. Its parts:
- a directory tree of `FsEntry` records, in which `readdir` or `stat` may fail;
- a `read` function that returns `None` when `readFile` fails;
- per-file metadata (times, hashes, encoding);
- a `decodes` predicate standing in for the UTF-8 decoder.

`formatFileSize` and `localeCompare` are parameters. The configuration and the
workspace base name are passed explicitly.

Modules, in dependency order:

| module | file | models |
|---|---|---|
| `Wrappers`, `Text` | wrappers.dfy, text.dfy | `Option`; JavaScript string operations (`trim`, `\s+` replacement, `toLowerCase` on ASCII, `replace` with `$`-patterns) |
| `Settings` | settings.dfy | the configuration record and the output formats |
| `Glob` | glob.dfy | `matchesPattern` |
| `FileKinds` | file_kinds.dfy | `path.extname`, `isTextFile`, `getLanguageFromExtension` |
| `OutputNames` | output_names.dfy | `generateProjectName`, `generateOutputFileName`, `isLikelyOutputFile`, `isCurrentOutputFile` |
| `Exclusion` | exclusion.dfy | `shouldExcludeFile` |
| `Tree` | tree.dfy | `buildProjectStructure` |
| `TreeFolds` | tree_folds.dfy | `countFiles`, `generateProjectStats` |
| `TreeText` | tree_text.dfy | `generateTreeStructure` |
| `Anchors` | anchors.dfy | `generateFileLinks`, `generateTableOfContents` |
| `Content`, `ContentProperties` | content.dfy, content_props.dfy | `generateMarkdownFileContent`, `generateFileContent`, `escapeMarkdownContent` |
| `Encoding` | encoding.dfy | `detectEncoding` |
| `Messages` | messages.dfy | `LocalizationManager`, `NotificationManager` |
| `Timestamps` | timestamps.dfy | the `GMT±hh:mm` offset string |

The loops of the source are methods with loop invariants: the listing and sorting
loop, the statistics closure, the link walk, the two content walks, the tree drawing,
the encoding scan and `formatString`. Each method is proved equal to a specification
function, and the promised properties are proved about that function.

## Model

| member | source | states |
|---|---|---|
| Text.ToLower | src/extension.ts:574 | lower-casing keeps the length and maps every character on its own |
| Text.Trim | src/extension.ts:654-655 | the result neither starts nor ends with white space |
| Text.TrimStartRemovesSpaces | src/extension.ts:654-655 | only white space is removed from the front |
| Text.TrimEndRemovesSpaces | src/extension.ts:654-655 | only white space is removed from the back |
| Text.TrimSpaces | src/extension.ts:654-655 | trimming removes exactly the white space around a text that neither starts nor ends in it |
| Text.CollapseSpaces | src/extension.ts:658 | replacing `\s+` with `-` leaves no white space; the lemmas below fix the result completely |
| Text.CollapseRunConcat | src/extension.ts:658 | the left-to-right scan over joined texts is the scan over the first, then the scan over the second in the state the first leaves |
| Text.CollapseSpacesSplit | src/extension.ts:658 | a text cut anywhere but inside a run of white space is hyphenated piece by piece |
| Text.CollapseSpacesRun | src/extension.ts:658 | a whole run of white space becomes a single hyphen |
| Text.CollapseSpacesGap | src/extension.ts:658 | a maximal run of white space between two parts becomes exactly one hyphen, and the parts are kept as they hyphenate on their own |
| Text.CollapseSpacesKeeps | src/extension.ts:658 | a string without white space is left unchanged |
| Text.CollapseOneSpace | src/extension.ts:1028 | one space between two words becomes one hyphen |
| Text.ReplaceAll | src/extension.ts:658 | `String.replace` with a global pattern: every occurrence, scanned left to right without overlap, is replaced by the expanded replacement; `ReplaceAllSplit`, `ReplaceAllNone` and `ReplaceAllFirst` fix the result |
| Text.ReplaceFirst | src/extension.ts:149 | `String.replace` with a string pattern: only the first occurrence is replaced, by the expanded replacement; `ReplaceFirstSplit` and `ReplaceFirstNone` fix the result |
| Text.ExpandPlain | src/extension.ts:149 | a replacement without `$` is inserted literally |
| Text.ExpandChars | src/extension.ts:149 | every character of an expansion comes from the replacement, the match or the text around it |
| Text.ReplaceAllFromNoMatch | src/extension.ts:869 | a global replace changes nothing when the pattern cannot start anywhere |
| Text.ReplaceFirstFromNoMatch | src/extension.ts:149 | a first-occurrence replace changes nothing when the pattern cannot start anywhere |
| Text.ReplaceAllSplit | src/extension.ts:657 | the global replace keeps the text before the first match, expands that match with the text before and after it, and goes on after the match |
| Text.ReplaceAllNone | src/extension.ts:657 | a text without an occurrence of the pattern comes out of the global replace unchanged |
| Text.ReplaceAllRebase | src/extension.ts:657 | with a `$`-free replacement, the part already scanned does not change the result |
| Text.ReplaceAllFirst | src/extension.ts:657 | a `$`-free replacement takes the place of the first match, and the rest of the text is replaced alike |
| Text.ReplaceAllNoSpace | src/extension.ts:657-658 | replacing with a `$`-free name that has no white space adds no white space |
| Text.ReplaceFirstSplit | src/extension.ts:149 | the first-occurrence replace keeps the text before the first match, expands that match and keeps everything after it |
| Text.ReplaceFirstNone | src/extension.ts:149 | a text without an occurrence of the pattern comes out of the first-occurrence replace unchanged |
| Text.NatToString | src/extension.ts:149 | a decimal numeral without leading zeros: digits only, a single digit exactly below ten, a leading `0` only for zero |
| Text.NatToStringValue | src/extension.ts:149 | the numeral denotes the number it was made from |
| Text.NatToStringInjective | src/extension.ts:149 | different numbers have different numerals |
| Glob.Tokens | src/extension.ts:625-629 | the regex the replace chain builds, read as tokens: `.` literal, `**` an any-character token then a star, `*` a slash-free run, `?` one character other than `/` |
| Glob.Matches | src/extension.ts:631-641 | the anchored regex `^tokens$` matches the whole path |
| Glob.MatchesPattern | src/extension.ts:612-651 | `matchesPattern`: the `/**` suffix branch, the `**` suffix branch, else the anchored regex of the tokens; the lemmas below state each branch |
| Glob.DirectoryPattern | src/extension.ts:615-618 | `base/**` matches exactly `base` and the paths below `base/` |
| Glob.PrefixPattern | src/extension.ts:620-623 | `base**` (with `base` not ending in `/`) is a plain prefix test |
| Glob.SiblingNotUnderDirectory | src/extension.ts:615-618 | `node_modules/**` does not match `node_modules_old` |
| Glob.PrefixCrossesBoundary | src/extension.ts:620-623 | `dir**` matches every path that starts with `dir`, sibling names included |
| Glob.LeadingGlobstarIsLiteral | src/extension.ts:615-618 | a leading `**/` in a `/**` pattern is literal, so it matches no ordinary path |
| Glob.SlashBounds | src/extension.ts:625-640 | a match has at least the pattern's literal slashes, and at most one more for each character that may stand for any character |
| Glob.TokenCounts | src/extension.ts:625-629 | the tokens keep the pattern's slashes as literals, and only `**` produces any-character tokens |
| Glob.RegexBranchSlashes | src/extension.ts:625-640 | `*` and `?` never consume `/`: without `**` a match has exactly the pattern's slashes |
| Glob.LiteralTokensMatch | src/extension.ts:626 | tokens without wildcards match exactly their own text: `.` is a literal dot |
| Glob.LiteralPattern | src/extension.ts:625-640 | a pattern without `*` or `?` matches exactly the path that equals it, anchored at both ends |
| Glob.StarSplit | src/extension.ts:628 | what `*` consumes is a run without `/` |
| Glob.StarRun | src/extension.ts:628 | `*` may consume any run without `/` |
| Glob.LiteralPrefixMatch | src/extension.ts:625-640 | a literal prefix must match the start of the path exactly |
| Glob.GlobstarTailSound | src/extension.ts:627-628 | a mid-pattern `**` becomes `.[^/]*`: one character that is not a line terminator, then a run without `/`, then the rest |
| Glob.GlobstarTailComplete | src/extension.ts:627-628 | every such split is accepted |
| Glob.GlobstarPatternTokens | src/extension.ts:625-629 | a pattern with one mid `**` takes the regex route and tokenises around it |
| Glob.MidGlobstar | src/extension.ts:625-640 | `pre**post` matches exactly a path that starts with `pre` and whose rest splits as above |
| FileKinds.IsTextFile | src/extension.ts:573-576 | `isTextFile`: the lower-cased `extname` of the base name is on the extension list of 250-263 |
| FileKinds.LanguageOf | src/extension.ts:874-876 | `getLanguageFromExtension`: the language of the first map entry whose key is the lower-cased extension, `text` when there is none; `LanguageOfKey` and `LanguageIffKey` fix it |
| FileKinds.LastDot | src/extension.ts:906 | the index of the last dot, or -1 when there is none |
| FileKinds.ExtName | src/extension.ts:906 | the extension is empty or a dotted suffix, shorter than the name, with no other dot |
| FileKinds.ExtNameCases | src/extension.ts:906 | a name has an extension exactly when it has a dot after its first character and is not `..` |
| FileKinds.DotfileHasNoExtension | src/extension.ts:573-576 | a dotfile without a second dot has no extension and is not a text file |
| FileKinds.NoExtensionNotText | src/extension.ts:573-576 | the list has no empty entry, so a name without an extension is never text |
| FileKinds.ListedDotfilesAreNotText | src/extension.ts:250-263 | the listed `.gitignore`, `.env` and `.htaccess` never make a file text |
| FileKinds.ToLowerHasNoUpper | src/extension.ts:574 | a lower-cased string holds no upper-case letter |
| FileKinds.UpperCaseEntriesAreDead | src/extension.ts:250-263 | the entries `.Dockerfile`, `.Makefile` and `.R` can never be looked up |
| FileKinds.LanguageHasKey | src/extension.ts:874-876 | the lookup answers other than `text` only for a key of the map |
| FileKinds.KeyListed | src/extension.ts:250-299 | every key of the language map is an entry of the extension list |
| FileKinds.LanguageOfKey | src/extension.ts:874-876 | every key of the language map is looked up to its own language, never to `text` |
| FileKinds.LanguageIffKey | src/extension.ts:874-876 | the lookup answers other than `text` exactly when the lower-cased extension is a key of the map |
| FileKinds.LanguageKeysAreText | src/extension.ts:265-299 | an extension whose language is not `text` is on the extension list |
| FileKinds.LanguageImpliesText | src/extension.ts:874-876 | a file whose extension has a language other than `text` is a text file |
| FileKinds.MarkdownHasNoLanguage | src/extension.ts:874-876 | the converse fails: `notes.md` is a text file whose language is `text` |
| FileKinds.UpperCaseExtensionIsText | src/extension.ts:573-576 | `index.TS` keeps its case in `extname` and is still a text file |
| FileKinds.UpperCaseExtensionLanguage | src/extension.ts:874-876 | the language lookup folds case: `.TS` is typescript |
| FileKinds.DottedDotfileHasExtension | src/extension.ts:906 | `.env.js` has the extension `.js` and is text |
| FileKinds.LastExtensionCounts | src/extension.ts:906 | only the last extension counts |
| FileKinds.NoExtensionExamples | src/extension.ts:906 | `..` and `Makefile` have no extension |
| OutputNames.OutputFileName | src/extension.ts:653-666 | `generateOutputFileName`: the stem of the template, a dot and the extension |
| OutputNames.IsLikelyOutputFile | src/extension.ts:541-558 | `isLikelyOutputFile`: the base name ends, ignoring case, in one of the four markers followed by `.txt` or `.md` |
| OutputNames.IsCurrentOutputFile | src/extension.ts:518-539 | `isCurrentOutputFile`: the base name equals the output file name of a format the configuration produces |
| OutputNames.ProjectName | src/extension.ts:1026-1029 | the project name holds no white space |
| OutputNames.ProjectNameRuns | src/extension.ts:1026-1029 | the white space around the name is dropped and the inside is hyphenated run by run |
| OutputNames.ProjectNameKeeps | src/extension.ts:1026-1029 | a name without white space is its own project name |
| OutputNames.TwoWordProjectName | src/extension.ts:1026-1029 | `My Project` gives `My-Project` |
| OutputNames.ReplaceIllegal | src/extension.ts:659 | same length, no illegal character left, every other character kept |
| OutputNames.StripOutputExt | src/extension.ts:660 | removes a prefix-preserving `.txt`/`.md` ending in any case, exactly when there is one, and only one |
| OutputNames.OutputStem | src/extension.ts:654-660 | the stem has no white space and none of `< > : " / \ \| ? *` |
| OutputNames.OutputFileNameShape | src/extension.ts:653-666 | an output name is a clean stem, a dot and the requested extension |
| OutputNames.SharedStem | src/extension.ts:653-666 | the txt and md names share a stem and differ only in the extension |
| OutputNames.OutputStemSubstitutes | src/extension.ts:654-660 | for a template without white space, the stem is the template with every placeholder replaced by the project name, illegal characters made hyphens and one output ending removed |
| OutputNames.PlaceholderBecomesProjectName | src/extension.ts:654-660 | wherever it stands, the first `{workspaceName}` becomes the trimmed, hyphenated workspace name, the text before it is kept and the rest of the template is replaced alike |
| OutputNames.TemplateWithoutPlaceholder | src/extension.ts:654-660 | a template without the placeholder is only cleaned and stripped of its output ending |
| OutputNames.PlaceholderThenCleanTail | src/extension.ts:654-660 | `{workspaceName}` followed by a clean tail gives the cleaned project name followed by that tail |
| OutputNames.LeadingPlaceholder | src/extension.ts:654-660 | the stem of `{workspaceName}` plus a clean tail is the expanded name plus that tail |
| OutputNames.TwoWordStem | src/extension.ts:653-666 | `My Project` with `{workspaceName}` and a clean tail such as `-report` gives `My-Project` followed by the tail |
| OutputNames.NoOutputExtWithoutDot | src/extension.ts:660 | a name without a dot in its last four characters keeps its ending |
| OutputNames.OutputTailIsClean | src/extension.ts:476 | what follows the placeholder in the default template `{workspaceName}-output` passes through the cleaning steps unchanged and is no output ending |
| OutputNames.DefaultNamesLookLikeOutput | src/extension.ts:541-551 | whatever the workspace, the default names count as likely output |
| OutputNames.OutputMarkerLooksLikeOutput | src/extension.ts:544-551 | any name ending in `-output.txt` or `-output.md` counts as likely output |
| OutputNames.OutputStemLooksLikeOutput | src/extension.ts:544-551 | any stem ending in `-output`, with either extension, counts as likely output |
| OutputNames.LikelyOutputIgnoresCase | src/extension.ts:544-551 | the likely-output test ignores case |
| OutputNames.StripsOneEnding | src/extension.ts:660 | `notes.txt.TXT` loses only its last ending |
| OutputNames.StripsAnyCase | src/extension.ts:660 | `export.Md` loses its ending and `export.mdx` keeps its own |
| Exclusion.FirstRule | src/extension.ts:578-610 | the rule that excludes an entry, tried in the source's order: current output, likely output, hidden name, then the first matching pattern |
| Exclusion.Excluded | src/extension.ts:578-610 | `shouldExcludeFile`'s verdict: some rule fires |
| Exclusion.FirstMatchSpec | src/extension.ts:602-607 | the search finds a matching pattern with no matching pattern before it, and finds none only when no pattern matches |
| Exclusion.MatchingPattern | src/extension.ts:602-607 | the loop over the patterns stops at the pattern the search specifies |
| Exclusion.AnyPatternPermutation | src/extension.ts:602-607 | whether some pattern matches is the same for any reordering of the patterns |
| Exclusion.ShouldExcludeFile | src/extension.ts:578-610 | the verdict and the rule that fires, by the ordered rules: current output, likely output, hidden, patterns |
| Exclusion.FirstRuleIffExcluded | src/extension.ts:578-610 | an entry is kept exactly when no rule fires |
| Exclusion.PatternRuleIsEarliest | src/extension.ts:585-607 | a pattern exclusion names the earliest matching pattern, and no earlier rule fired |
| Exclusion.PatternOrderIrrelevant | src/extension.ts:602-607 | reordering the patterns never changes the verdict |
| Exclusion.CurrentOutputAlwaysExcluded | src/extension.ts:518-539 | the output of a configured format is excluded by the first rule, whatever the other settings |
| Exclusion.DefaultOutputNamesExcluded | src/extension.ts:518-558 | default-named outputs of either format are excluded as current or likely output |
| Exclusion.HiddenRuleNeedsSetting | src/extension.ts:597-600 | the hidden rule fires exactly for a dot name, when hidden files are off and no output rule fired |
| Exclusion.DirectoryPatternExcludes | src/extension.ts:602-618 | a `dir/**` pattern excludes `dir` and everything below it |
| Tree.Sorted | src/extension.ts:914-919 | every pair of nodes is in the comparator's order: directories first, then by name |
| Tree.Gather | src/extension.ts:884-909 | the kept entries of a directory in listing order, directories listed recursively, ending at a failing `stat` |
| Tree.Listing | src/extension.ts:878-920 | `buildProjectStructure`'s result: the gathered entries sorted, or nothing when the directory cannot be read |
| Tree.Insert | src/extension.ts:914-919 | inserting adds exactly the one node |
| Tree.SortNodes | src/extension.ts:914-919 | the sort is a permutation |
| Tree.BuildProjectStructure | src/extension.ts:878-920 | the loop builds the specified listing: kept entries, in order, with the failure handling, then sorted |
| Tree.InsertSorted | src/extension.ts:914-919 | inserting into a sorted list keeps it sorted |
| Tree.SortNodesSorted | src/extension.ts:914-919 | the sort gives a sorted permutation |
| Tree.SortedGroups | src/extension.ts:914-919 | directories come before files, and each group is in name order |
| Tree.GatherOk | src/extension.ts:884-909 | every gathered node is well formed: its path, no exclusion rule firing, and its extension or sorted children |
| Tree.ListingOk | src/extension.ts:878-920 | a listing is sorted and every node in it, at every depth, is well formed |
| Tree.ListingPermutes | src/extension.ts:910-919 | the listing holds exactly the gathered nodes; an unreadable directory has none |
| Tree.GatherAppend | src/extension.ts:884-909 | entries before a failing `stat` contribute independently of what follows |
| Tree.StatFailureTruncates | src/extension.ts:900-912 | a failing `stat` truncates the directory to the entries gathered before it |
| Tree.UnreadableDirectory | src/extension.ts:891-912 | an unreadable directory appears with no children, and its siblings are unaffected |
| TreeFolds.CountTypes | src/extension.ts:769-770 | the extension counts after each file of a list adds one to its extension |
| TreeFolds.Walked | src/extension.ts:752-775 | the statistics of a forest stated as flat folds over its files and directories |
| TreeFolds.Processed | src/extension.ts:752-775 | the `processItems` closure: items left to right, directories recursively |
| TreeFolds.Visit | src/extension.ts:754-771 | one pass of the closure's loop: a directory counted and walked, a file tallied |
| TreeFolds.Files | src/extension.ts:1196-1206 | the files of a forest, and only files |
| TreeFolds.FilesAppend | src/extension.ts:1198-1204 | the files and the directory count of two lists add up |
| TreeFolds.CountFiles | src/extension.ts:1196-1206 | the count equals the number of files at every depth |
| TreeFolds.Bump | src/extension.ts:769-770 | bumping a count adds at most one entry |
| TreeFolds.BumpTotal | src/extension.ts:770 | a bump adds one to the total |
| TreeFolds.BumpLookup | src/extension.ts:770 | a bump adds one to its own extension and nothing to any other |
| TreeFolds.BumpDistinct | src/extension.ts:770 | the map keeps one entry per extension |
| TreeFolds.KeysOfBump | src/extension.ts:770 | a bump adds exactly its extension to the keys |
| TreeFolds.CountTypesCounts | src/extension.ts:769-770 | after counting, each extension's entry equals its number of files, and the entries sum to the file count |
| TreeFolds.TextOrBinary | src/extension.ts:763-767 | every file is counted as text or as binary, never both |
| TreeFolds.SumsAppend | src/extension.ts:760-767 | the text, binary and size counts of two lists add up |
| TreeFolds.WalkedAppend | src/extension.ts:752-773 | walking two lists one after the other equals walking them joined |
| TreeFolds.WalkedFile | src/extension.ts:759-771 | a file counts once, by kind, by size (missing size 0) and by extension |
| TreeFolds.WalkedDirectory | src/extension.ts:754-758 | a directory counts once and its children are walked |
| TreeFolds.ProcessedIsWalked | src/extension.ts:752-773 | the item-by-item walk tallies exactly the files and directories of the flattened tree |
| TreeFolds.VisitIsWalked | src/extension.ts:753-772 | visiting one item tallies it as the flattened definition does |
| TreeFolds.ProcessItems | src/extension.ts:752-773 | the closure's loop leaves the record as the item-by-item walk specifies |
| TreeFolds.ProcessItem | src/extension.ts:754-771 | one pass of the loop updates the record for one item, recursing into a directory |
| TreeFolds.CountFile | src/extension.ts:759-771 | a file adds one file, its size, one text or binary count and one count for its extension |
| TreeFolds.GenerateProjectStats | src/extension.ts:735-777 | totalFiles = textFiles + binaryFiles = the sum of the fileTypes counts = the number of files; totalDirectories counts every directory; totalSize sums the sizes; each extension's count is its number of files |
| TreeText.Rows | src/extension.ts:922-943 | the lines `generateTreeStructure` writes, as rows in depth-first pre-order |
| TreeText.RowsFrom | src/extension.ts:925-941 | the rows of the siblings from one index on, each followed by its subtree |
| TreeText.Render | src/extension.ts:931-939 | the text of a list of rows, one line each |
| TreeText.Segment | src/extension.ts:929 | an indent segment is four characters |
| TreeText.RenderAppend | src/extension.ts:922-943 | the text of joined rows is the joined text |
| TreeText.RenderFrom | src/extension.ts:925-940 | the siblings' text is the current sibling's text followed by the rest |
| TreeText.RenderStep | src/extension.ts:925-940 | one pass of the loop keeps the built text followed by what is left equal to the whole listing |
| TreeText.DirectoryLine | src/extension.ts:931-935 | the loop writes a directory's line as specified |
| TreeText.FileLine | src/extension.ts:936-939 | the loop writes a file's line as specified |
| TreeText.GenerateTreeStructure | src/extension.ts:922-943 | the text is one line per row of the depth-first listing |
| TreeText.TreeItem | src/extension.ts:926-939 | one sibling's line followed by its subtree's lines |
| TreeText.RowsCount | src/extension.ts:922-943 | one row per node, files and directories alike |
| TreeText.RowsFromSuffix | src/extension.ts:925-940 | the rows from a sibling on end the list's rows |
| TreeText.SiblingRows | src/extension.ts:925-935 | a sibling's row follows the rows of the earlier siblings, at the list's indent; only the last sibling uses the elbow; its subtree follows, one 4-character segment deeper |
| TreeText.LineShape | src/extension.ts:928-938 | every line starts with its indent and connector; a directory line ends in `/`; the size suffix appears exactly when the size is not 0 |
| TreeText.RenderLines | src/extension.ts:922-943 | exactly one line break per row, when names hold none |
| TreeText.LineHasNoBreak | src/extension.ts:932-938 | a line has a break only if its indent, name or size text does |
| Anchors.Squeeze | src/extension.ts:420 | `replace(/-+/g, '-')`: each run of hyphens becomes one hyphen |
| Anchors.Slug | src/extension.ts:417-421 | the lower-cased path with other characters dashed, runs squeezed and edge hyphens trimmed |
| Anchors.Anchor | src/extension.ts:417-426 | the anchor of a path: the page-icon prefix, a hyphen and the slug |
| Anchors.LinksOf | src/extension.ts:405-433 | `generateFileLinks`: the links of the text files, in order |
| Anchors.LinkLines | src/extension.ts:377-379 | one table line per link, in order |
| Anchors.TocText | src/extension.ts:371-387 | the table text: heading, then the link lines or the no-files note, then the rule |
| Anchors.Dashed | src/extension.ts:419 | same length, every character outside `[a-z0-9]` becomes a hyphen |
| Anchors.LinksOfAppend | src/extension.ts:408-429 | the links of two lists are joined |
| Anchors.GenerateFileLinks | src/extension.ts:405-433 | the links of the tree's text files, in depth-first order |
| Anchors.LinkItem | src/extension.ts:409-427 | one item's links: a directory's, or a text file's own |
| Anchors.AppendLinkLines | src/extension.ts:378-380 | the loop appends one line per link, in order |
| Anchors.GenerateTableOfContents | src/extension.ts:371-387 | the table: the header, then a line per link or the no-files note, then the rule |
| Anchors.SqueezeShape | src/extension.ts:420 | squeezing keeps the alphabet and leaves no doubled hyphen |
| Anchors.SlugWellFormed | src/extension.ts:417-421 | an anchor is `[a-z0-9]` runs joined by single hyphens, with no hyphen at either end |
| Anchors.SqueezeFixed | src/extension.ts:420 | a string without doubled hyphens is not changed by squeezing |
| Anchors.SlugFixed | src/extension.ts:417-421 | a well-formed anchor is its own anchor |
| Anchors.SlugIdempotent | src/extension.ts:417-421 | making an anchor twice gives the anchor made once |
| Anchors.AlnumsAppend | src/extension.ts:417-421 | the letters and digits of two strings are joined |
| Anchors.DashedKeepsAlnums | src/extension.ts:419 | the dash step keeps the letters and digits |
| Anchors.SqueezeKeepsAlnums | src/extension.ts:420 | the squeeze step keeps the letters and digits |
| Anchors.TrimKeepsAlnums | src/extension.ts:421 | the trim step keeps the letters and digits |
| Anchors.SlugKeepsAlnums | src/extension.ts:417-421 | an anchor holds the letters and digits of the lower-cased path, in order |
| Anchors.AnchorsCollide | src/extension.ts:417-421 | `a_b.ts` and `a-b.ts` share an anchor |
| Anchors.LinksOfFiles | src/extension.ts:405-433 | one link per text file, each carrying its path and that path's anchor, and nothing else |
| Anchors.LinkLinesCount | src/extension.ts:375-382 | the table is empty exactly when there are no links |
| Content.EscapeMarkdownContent | src/extension.ts:866-872 | `escapeMarkdownContent`: every triple backtick becomes `~~~~`, inside a four-backtick `markdown` fence |
| Content.MarkdownBlock | src/extension.ts:795-843 | the markdown block of an embedded file: heading, information lines, fenced contents, rule |
| Content.PlainBlock | src/extension.ts:970-1008 | the plain-text block of an embedded file |
| Content.Walk | src/extension.ts:783-850 | the sections of a directory's entries in order: an embedded block per passing file, directories recursively |
| Content.Sections | src/extension.ts:779-864 | the sections of a directory, then the list of its skipped files when there are any |
| Content.Output | src/extension.ts:779-864 | the text of a list of sections, each rendered in turn |
| Content.OutputAppend | src/extension.ts:779-864 | the text of joined sections is the joined text |
| Content.WalkAppend | src/extension.ts:782-851 | the sections and the skipped paths of two lists are joined |
| Content.ContentStep | src/extension.ts:782-851 | one pass of either loop keeps the text and the skipped list equal to those of the entries seen |
| Content.ContentDone | src/extension.ts:853-861 | after the loop, the text plus the list of skipped files when there are any is the whole text |
| Content.PathLinesStep | src/extension.ts:857-859 | one more line of the skipped list |
| Content.AppendPathLines | src/extension.ts:857-859 | the `forEach` writes one line per skipped path, in order |
| Content.ItemCases | src/extension.ts:783-850 | an entry contributes its directory's text, its block, or its place on the list |
| Content.ItemResult | src/extension.ts:783-850 | what one pass of the loop must write for one entry |
| Content.FileEntry | src/extension.ts:786-849 | a file gets its block when it is text, within the size limit and readable; otherwise it is listed |
| Content.GenerateMarkdownFileContent | src/extension.ts:779-864 | the markdown text is the rendering of the specified sections: each embedded file's block and each directory's list of skipped files |
| Content.MarkdownItem | src/extension.ts:783-850 | one entry of the markdown walk |
| Content.GenerateFileContent | src/extension.ts:953-1024 | the plain text is the rendering of the same sections |
| Content.PlainItem | src/extension.ts:957-1011 | one entry of the plain-text walk |
| ContentProperties.KeptAppend | src/extension.ts:779-864 | the kept and dropped files of two lists are joined |
| ContentProperties.SectionsAppend | src/extension.ts:779-864 | the embedded and listed files of two section lists are joined |
| ContentProperties.FileEntryPartition | src/extension.ts:786-849 | a file entry is embedded or listed at its own level |
| ContentProperties.ItemPartition | src/extension.ts:783-850 | one entry embeds its passing files and lists every other file once |
| ContentProperties.WalkPartition | src/extension.ts:782-851 | the entries embed exactly the passing files, in order, and list every other file once |
| ContentProperties.SectionsPartition | src/extension.ts:779-864 | a directory's sections embed exactly the files that pass the test, in order, and list every other file exactly once |
| ContentProperties.KeptMembers | src/extension.ts:791 | a file is kept exactly when it is present and passes the test |
| ContentProperties.DroppedMembers | src/extension.ts:791-848 | every failing file's path is dropped |
| ContentProperties.DroppedSource | src/extension.ts:845-848 | a dropped path belongs to a failing file |
| ContentProperties.FileFate | src/extension.ts:779-864 | a file gets a block exactly when it is text, within the size limit and readable; otherwise its path is listed |
| ContentProperties.ListedAreNotEmbedded | src/extension.ts:845-848 | only files without a block are listed |
| ContentProperties.PartitionCounts | src/extension.ts:791 | kept and dropped together count every file once |
| ContentProperties.EveryFileOnce | src/extension.ts:779-864 | one block or one listed line per file, never both and never neither |
| ContentProperties.EscapeLeavesNoTriple | src/extension.ts:866-872 | the global replace leaves no three backticks in a row |
| ContentProperties.EscapedBodyCannotCloseFence | src/extension.ts:866-872 | an escaped markdown body cannot end its four-backtick fence early |
| ContentProperties.EscapeKeepsPlainText | src/extension.ts:866-872 | contents without a backtick pass through unchanged inside the fence |
| ContentProperties.HeadingPrefix | src/extension.ts:797-803 | a heading starts with its full anchor, closing quote included |
| ContentProperties.HeadingCarriesLink | src/extension.ts:797-803 | every block's heading carries the anchor of its file's table link |
| ContentProperties.LinksOfTextFiles | src/extension.ts:405-433 | for text files, the link anchors are the heading anchors |
| ContentProperties.BigTsFile | src/extension.ts:573-576 | `big.ts` at the top is a text file with the path `big.ts` |
| ContentProperties.BrokenTableLink | src/extension.ts:371-387 | as written: a text file over the size limit gets a table link but no heading |
| ContentProperties.EmbeddedLinksMatchHeadings | src/extension.ts:371-387 | with links taken from the embedded files, links and headings correspond one to one, in order |
| Encoding.ScanLength | src/extension.ts:339 | the scan covers `min(length, 1024)` bytes |
| Encoding.Classify | src/extension.ts:325-361 | one of the six verdicts, and `Unknown` exactly when the read fails |
| Encoding.DetectEncoding | src/extension.ts:325-361 | the marks, then the scan that stops at the first byte above 127, give the specified verdict |
| Encoding.EmptyIsAscii | src/extension.ts:339-349 | an empty file is ASCII |
| Encoding.Utf8BomFirst | src/extension.ts:329-331 | the UTF-8 mark wins, whatever follows |
| Encoding.Utf16Marks | src/extension.ts:333-337 | either UTF-16 mark gives UTF-16 |
| Encoding.AsciiExactly | src/extension.ts:339-349 | ASCII exactly when there is no mark and none of the first 1024 bytes is above 127 |
| Encoding.DecoderOnlyAfterScan | src/extension.ts:351-356 | the decoder decides only for a file with a non-ASCII byte in its first 1024 bytes |
| Encoding.TailIgnored | src/extension.ts:339-349 | bytes after the first 1024 never change the ASCII verdict |
| Messages.Resolve | src/extension.ts:130-143 | `getString`'s fallback chain: the current language, then English, then a non-empty fallback, then the key |
| Messages.Substitute | src/extension.ts:145-152 | `formatString` after the lookup: `{0}`, `{1}`, ... each replaced once, in index order, in the text so far |
| Messages.Shows | src/extension.ts:169-184 | `shouldShowNotification`'s switch on the level, `default` included |
| Messages.Lookup | src/extension.ts:132-133 | a translation is found only when present and not empty |
| Messages.Placeholder | src/extension.ts:149 | a placeholder is `{`, digits, `}` |
| Messages.PlaceholderChars | src/extension.ts:149 | between its braces a placeholder holds exactly the index's numeral |
| Messages.PlaceholderInjective | src/extension.ts:149 | different indices give different placeholders |
| Messages.PlaceholderAlone | src/extension.ts:146-152 | in a text whose only `{` opens `{i}`, no other placeholder occurs |
| Messages.LocalizationManager.constructor | src/extension.ts:51-56 | a fresh manager speaks English |
| Messages.LocalizationManager.SetLanguage | src/extension.ts:126-129 | the language is set and the table is untouched |
| Messages.LocalizationManager.GetString | src/extension.ts:131-144 | never empty for a non-empty key; the current translation wins; always one of the four candidates |
| Messages.LocalizationManager.FormatString | src/extension.ts:146-152 | the loop gives the message without fallback with `{0}`, `{1}`, … each replaced once, in index order; SubstituteOne and the lemmas after it say what that yields |
| Messages.ResolveOrder | src/extension.ts:131-144 | current language, then English, then the fallback, then the key |
| Messages.EmptyFallbackGivesKey | src/extension.ts:143 | an empty fallback is as good as none |
| Messages.EmptyTranslationSkipped | src/extension.ts:132-141 | an empty translation falls through to English |
| Messages.NoPlaceholdersUnchanged | src/extension.ts:146-152 | a text without `{` is returned unchanged |
| Messages.SubstituteUntouched | src/extension.ts:146-152 | arguments whose placeholders do not occur leave the text unchanged |
| Messages.SubstituteOne | src/extension.ts:146-152 | for any arguments, a text whose only placeholder is `{i}` gets `args[i]` in its place and keeps everything else |
| Messages.FirstOccurrenceOnly | src/extension.ts:149 | for any text, only the first `{0}` is filled in; whatever follows it, a later `{0}` included, is kept |
| Messages.LaterPlaceholderInArgument | src/extension.ts:148-150 | for any texts around them, an argument for `{0}` holding `{1}` gets `{1}` filled in by the next argument |
| Messages.DollarAmpersandKeepsPlaceholder | src/extension.ts:149 | for any text, a `$&` argument puts the placeholder itself back |
| Messages.NotificationManager.constructor | src/extension.ts:159-162 | the default level is minimal |
| Messages.NotificationManager.SetNotificationLevel | src/extension.ts:164-167 | any string is stored as the level |
| Messages.NotificationManager.ShouldShowNotification | src/extension.ts:169-184 | shown exactly when the level is not silent, and under minimal only for successes and errors |
| Messages.LevelsExactly | src/extension.ts:169-184 | silent shows nothing; minimal shows exactly successes and errors; any other level shows everything |
| Messages.LevelsNested | src/extension.ts:169-184 | raising the level never hides a notification |
| Timestamps.Render | src/extension.ts:366 | `GMT`, then `+` when `getTimezoneOffset` is at most 0 (a zone at or ahead of UTC) and `-` otherwise, then two-digit hours, `:` and two-digit minutes |
| Timestamps.GmtStringAsWritten | src/extension.ts:1077 | the offset string as the exporter builds it, from the floored hours and the truncated remainder |
| Timestamps.GmtString | src/extension.ts:1077 | the offset string with the hours and minutes of the offset's magnitude |
| Timestamps.JsRem60 | src/extension.ts:366 | JavaScript's `%`: the remainder takes the sign of the dividend |
| Timestamps.Pad2 | src/extension.ts:366 | `padStart(2, '0')` gives two characters below 100 |
| Timestamps.CorrectedParts | src/extension.ts:366 | the hours and minutes add up to the offset's magnitude |
| Timestamps.GmtStringFaithful | src/extension.ts:366 | the corrected string shows the sign and the hours and minutes of the offset |
| Timestamps.AsWrittenHours | src/extension.ts:1077 | the code is right behind UTC and for whole hours, and one hour too many otherwise |
| Timestamps.HalfHourZoneMisprinted | src/extension.ts:1077 | the offset -330 prints `GMT+06:30`; the corrected string is `GMT+05:30` |

## Left out

- File-system I/O (`readdir`, `stat`, `readFile`, `writeFile`, `access`, `unlink`) is not performed. The directory tree, the read outcome, the per-file metadata and the decoder outcome are inputs.
- MD5 and SHA-256 (`crypto`) appear only as strings in the file metadata. Hashing is foreign code.
- `formatFileSize` is a parameter. It uses floating-point `Math.log`, `Math.pow` and `toFixed`.
- `localeCompare` is an abstract total preorder. The sort is modelled as a stable insertion sort, which gives the same order as any stable sort.
- `toLowerCase` is modelled on ASCII letters only. Unicode case mapping is left out.
- `\s` and `trim` follow JavaScript's white-space set.
- Glob.Matches: a character is one Unicode scalar value, while the exporter's `RegExp` has no `u` flag and works on UTF-16 code units. So a `?` (the source's `[^/]`), or the `.` of a middle `**`, takes a whole character beyond the Basic Multilingual Plane in the model but only half of one in the source. A single `?` therefore matches such a character in the model and not in the source.
- Exclude patterns are restricted to the supported glob grammar. Patterns with the other regular-expression characters (`+ ( ) [ ] { } | ^ $`) are left out, and so is the `RegExp` compile-failure branch, which returns false, since no supported pattern reaches it.
- `path.relative`, `path.join` and `path.dirname` are modelled on root-relative segment lists. A POSIX file name containing a backslash, which the normalisation turns into a slash, is not distinguished from a nested path in the printed relative directory.
- The engine applies `isTextFile` to a full path. The model applies it to the base name, which has the same `extname`.
- Timestamp formatting (`toISOString`, the `Intl` time-zone name, the clock) is left out. The created and modified strings are metadata inputs, and only the offset arithmetic is modelled. The model does not capture a `toISOString` throw after part of a block has been appended.
- The translation table is a constructor parameter rather than the built-in table, and `getInstance`'s singleton is left out. JavaScript property-lookup quirks (inherited keys such as `__proto__`) are not modelled.
- The `show*Message` helpers, the output channel, commands, activation, configuration updates, `toggleAutoExport` and save-triggered export (`onFileChanged`/`onFileSaved` with its timer) are VS Code plumbing and events.
- `exportProject` and `generateMarkdownContent` are left out: the orchestration, the fixed header text, the output-file deletion and the per-format write loop. One `try` surrounds both writes, so a failed write aborts the rest. That orchestration is not part of this model.
- Content.FileMeta: the `Encoding:` line of a block prints the metadata's encoding string. The model does not tie it to Encoding.Classify of the file's bytes, which is what the exporter computes there.
- OutputNames.OutputStemSubstitutes and OutputNames.PlaceholderBecomesProjectName cover templates without white space and workspace names without `$`. For other templates only the cleanliness of the stem is stated (OutputNames.OutputStem). A `$` in a workspace name is expanded as a replacement pattern (Text.Expand), which the model follows but does not characterise.
- Encoding.DetectEncoding: Node's UTF-8 `toString` does not throw, so in practice `Binary/Unknown` is not reachable. The model keeps the decoder's outcome as an input instead of fixing it to success.
- Content.GenerateMarkdownFileContent and Content.GenerateFileContent: a directory node always has a children list in the trees the engine builds, so the `item.children` guard is not modelled.

## Findings

| source | as written | input that shows it | evidently intended | confidence | as-written member | corrected member |
|---|---|---|---|---|---|---|
| src/extension.ts:371-387 | The table of contents and the file-links list link every text file. Only files within `maxFileSize` that can be read get a block with the matching heading. | A top-level `big.ts` of 2 bytes with `maxFileSize` 1: its table link `#📄-big-ts` points to a heading that is never written. | A link for each written block, so every link has its heading. | not executed | ContentProperties.BrokenTableLink | ContentProperties.EmbeddedLinksMatchHeadings |
| src/extension.ts:1077 | The hours are `Math.abs(Math.floor(offset / 60))` and the minutes `Math.abs(offset % 60)`. For a zone ahead of UTC with a non-whole-hour offset, the floor goes one hour too far. | `getTimezoneOffset()` = -330 (India) prints `GMT+06:30`. | `GMT+05:30`: the hours and minutes of the offset's magnitude. | not executed | Timestamps.HalfHourZoneMisprinted | Timestamps.GmtStringFaithful |
