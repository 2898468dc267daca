# sputnik harness generator, modelled in Dafny

sputnik generates differential-testing harnesses for C libraries. Every library (musl, dietlibc, ...) is
compiled to LLVM IR. Its global symbols are renamed with the library's name as a prefix. Call wrappers
`lib_entry_<f>` are linked in. A C test harness then calls the same function in every library on
symbolic (KLEE) or fuzzed (AFL) inputs. The harness stores every result and runs a verifier that
clusters the libraries by their results. It aborts when they fall into more than one cluster.

This project models that core:

- `rename.dfy` (module `Rename`) covers the symbol renamer. It models the name mangling `sub`, the
  table of renamed symbols that `detect_names` builds from the lines of an LLVM module, and the
  single-pass rewrite `substitute`. The two patterns are matched by hand-written matchers.
- `language.dfy` (module `Language`) covers the C declaration layer. It models how `Variable` and
  `Signature` parse a declaration and how a `Function` prints its declaration, definition and call.
- `verifier.dfy` (module `Verifier`) covers the C code the harness emits.
  - The clustering verifier runs over the array `mapping` and builds its abort message in a
    1024-character buffer.
  - The pairwise verifier and the two `lib_eval` comparisons are modelled as well.
  - `lib_eval` is a function parameter, and the partition theorem is proved for the comparisons
    sputnik emits.
- `crafter.dfy` (module `Crafter`) covers the class `TestHarness`.
  - Its fields are `entries`, `arguments_cache`, `assumptions`, `testcases_fuzzing`, `signature`
    and `engine`.
  - It models the signature setter, `prepare`, and the code generators that assemble the harness
    text.
  - A library is represented by its `Build` (`library.dfy`), whose `libName` is the library's
    name.
- `prebuild.py` is modelled in `prebuild.dfy` (module `Prebuild`). It covers the incremental choice
  of sources to compile, the temporary file names of the renaming step, the integrity check after a
  build and the text of the call wrappers.
- `library.py` is modelled in `library.dfy` (module `Library`). It covers the renaming table lookup,
  the manifests a `Build` holds, and how `Library.load` derives its paths. It also covers the
  attribute defaults of `Library.__init__` and the `.c` branch of `sources`.
- `compiler.dfy` and `tools.dfy` (modules `Compiler` and `Tools`) cover the tool paths, the
  command lines, the `run_command` result rule, the statistics of `compile_collection`, and
  `indent`.
- `max_strcpy.dfy` and `musl_stpcpy.dfy` model the two example implementations as methods over
  byte arrays.
  - `max_strcpy` deliberately stops at an `l`.
  - musl's `__stpcpy` copies word-wise. Its `HASZERO` test is proved on 64-bit words.
  - Both are compared with the `strcpy` of section 7.24.2.3 of ISO/IEC 9899:2011 (C11), which
    `cstrings.dfy` states.
- `wrappers.dfy`, `text.dfy`, `dicts.dfy` and `paths.dfy` hold what the Python runtime provides:
  - `Option`/`Result`;
  - `str.split`, `join`, `find` and `str(n)`;
  - a dictionary as an insertion-ordered list of pairs with Python's assignment semantics;
  - `os.path.join` and `basename`.

Python exceptions become `Result` errors or `Option` results. Anything read from outside the process is
a parameter of the member that uses it: a file, a man page, a directory listing, the exit status of a
tool. Dictionaries keep Python's insertion order, because the harness text follows it.

## Model

| member | source | states |
|---|---|---|
| Tools.Indent | sputnik/tools.py:8-14 | a single line stays a single line and a list keeps its length |
| Tools.IndentRoundTrip | sputnik/tools.py:8-14 | every indented line is the prefix `indenter * indentation` followed by the original line, in the original order |
| Tools.IndentZero | sputnik/tools.py:8-14 | a zero or negative indentation returns the code unchanged |
| Tools.IndentTwice | sputnik/tools.py:8-14 | indenting by m and then by n is indenting by m + n |
| Compiler.Tool | sputnik/compiler.py:22-27 | the corrected tool path lies in the tool directory and is named after the tool |
| Compiler.Toolchain | sputnik/compiler.py:22-27 | the paths of `clang`, `llvm-link`, `llvm-as` and `llvm-dis`, as intended, each name its tool inside the tool directory |
| Compiler.ToolAsWrittenMissesDirectory | sputnik/compiler.py:22-27 | as written, the tool path's last component is the directory's last component glued to the tool name, never the tool name itself |
| Compiler.RunCommand | sputnik/compiler.py:57-63 | a non-zero exit status is a CompileError carrying the error output; otherwise the result is the error output as a warning, or None when there was none |
| Compiler.CompileCommandWords | sputnik/compiler.py:65-71 | the compile command splits into the compiler, the flags word by word, `-o`, the destination and the source |
| Compiler.LinkCommandWords | sputnik/compiler.py:73-79 | the link command splits into the linker, its arguments, `-o`, the destination and every input file in order |
| Compiler.CompileCollection | sputnik/compiler.py:35-55 | the files returned are the destinations that compiled, in order; `compiled` counts them, `failed` counts the rest, `warning` counts the compilations with a warning and `skipped` stays 0 |
| Compiler.CompiledIff | sputnik/compiler.py:40-53 | a destination is returned exactly when some source with that destination compiled |
| Compiler.WarningsOnlyForCompiled | sputnik/compiler.py:48-52 | no more warnings are counted than files compiled |
| Compiler.AllSucceed | sputnik/compiler.py:35-55 | when every compilation exits with status 0, every destination is returned, in the order of the collection |
| Rename.Lead | sputnik/rename.py:59 | the count of leading underscores the group `([_]*)` captures: all of them, and no more |
| Rename.UpToBreak | sputnik/rename.py:59 | the text `(.*)` captures is the prefix of the symbol before any line break, and the whole symbol when it has none |
| Rename.LeadOfSub | sputnik/rename.py:59 | a renamed symbol has the symbol's leading underscores plus a number that depends on the prefix only |
| Rename.SubParts | sputnik/rename.py:59 | the renamed symbol is the leading underscores, the prefix, `_`, then the rest of the symbol |
| Rename.SubInjective | sputnik/rename.py:59 | for one prefix, two symbols without line breaks never get the same new name |
| Rename.SubSeparatesPrefixes | sputnik/rename.py:59 | one symbol renamed with two different prefixes gives two different names |
| Rename.SubCollidesAcrossPrefixes | sputnik/rename.py:59 | across prefixes the renaming collides: `b_x` in library `a` and `x` in library `a_b` both become `a_b_x` |
| Rename.SubKeepsLeadingUnderscores | sputnik/rename.py:59 | leading underscores stay in front of the prefix (`__foo` becomes `__<prefix>_foo`) |
| Rename.WrapperEntryName | sputnik/rename.py:59 | the renamed entry wrapper `lib_entry_<f>` of a library is `<library>_lib_entry_<f>` |
| Rename.SubOfPrefix | sputnik/rename.py:59 | renaming a symbol that is a prefix of another and appending the remaining characters renames the longer symbol, unless the shorter is only underscores |
| Rename.SubOfUnderscorePrefix | sputnik/rename.py:59 | with a symbol made only of underscores that rule fails |
| Rename.VariableSymbolIff | sputnik/rename.py:18-19 | the variable matcher accepts a line exactly when it is `@name = ` with a name without white space, not followed by an excluded linkage |
| Rename.FunctionSymbol | sputnik/rename.py:20-21 | a detected function starts with `define ` not followed by an excluded linkage, and its name follows the first `@` and is followed by `(` |
| Rename.FunctionSymbolOfDefinition | sputnik/rename.py:20-21 | a definition `define <type> @name(...)` with a plain name is detected with that name |
| Rename.LineSymbol | sputnik/rename.py:25-33 | the variable alternative is tried first; a symbol found in a line has no line break |
| Rename.Detected | sputnik/rename.py:10-35 | the table has unique keys, every key is `@` and a defined symbol, every defined symbol is a key, and each maps to `@` and its renaming |
| Rename.DetectNames | sputnik/rename.py:10-35 | the line-by-line scan builds exactly the table Detected describes |
| Rename.FirstKey | sputnik/rename.py:47-50 | the alternation matches the first listed key that starts the text, and no key when none does |
| Rename.LineWithoutMarkerUnchanged | sputnik/rename.py:47-50 | a line without `@` passes through substitution unchanged |
| Rename.RewriteRenamesReference | sputnik/rename.py:47-50 | a reference to a detected symbol is rewritten to its renaming, even when a shorter key that prefixes it is listed first |
| Rename.UnderscoreSymbolMisrenames | sputnik/rename.py:47-50 | with the symbol `_` listed before `__x`, the reference `@__x` is not rewritten to the renaming of `__x` |
| Rename.PrintedTextIsJoin | sputnik/rename.py:49-51 | printing the lines writes them joined by line breaks, with a final line break |
| Rename.Substitute | sputnik/rename.py:37-51 | an empty table fails with the lookup error of the empty match after the destination was emptied; otherwise every line is rewritten and printed |
| Rename.SubstituteKeepsLines | sputnik/rename.py:37-51 | substitution writes one line per line of the content |
| Rename.Rename | sputnik/rename.py:53-63 | the table returned is the detected table; the text written is the content rewritten with it; a module defining no symbol ends in the lookup error |
| Rename.RenameKeepsLines | sputnik/rename.py:53-63 | with a prefix without line break, renaming keeps the line structure of the module |
| Language.ParseVariable | sputnik/language.py:146-160 | a parsed variable has no value, and its array size is the given one exactly when it is a pointer, -1 otherwise |
| Language.ParseVariableFails | sputnik/language.py:159 | parsing fails (the pattern does not match) exactly when the line holds no whitespace |
| Language.ParseVariablePrinted | sputnik/language.py:146-160 | printing a well-formed variable and parsing the text gives the variable back, with parsing's array-size rule applied |
| Language.ParseVariableDropsConst | sputnik/language.py:159 | a leading `const ` is dropped by parsing |
| Language.ParseExamplePlain | sputnik/language.py:243 | `void x` parses to a plain `void` variable `x` |
| Language.ParseExampleTwoWordType | sputnik/language.py:244 | `unsigned int x` keeps the two-word type |
| Language.ParseExamplePointer | sputnik/language.py:245 | `struct foo *bar` is a pointer of depth 1 to `struct foo` |
| Language.ParseExampleSevenStars | sputnik/language.py:246 | `int *******x` has pointer depth 7 |
| Language.VariablePrintExamples | sputnik/language.py:267-274 | `type_str` and `str` print `void`, `void foo_bar`, `void **` and `void **foo_bar` |
| Language.ParseSignature | sputnik/language.py:7-44 | the return variable of a parsed signature is `unnamed` with unknown array size |
| Language.ParseAllEach | sputnik/language.py:42 | when every `, `-separated parameter parses, the argument list is those parameters, in order |
| Language.ParseAllFailsAt | sputnik/language.py:42 | one parameter that does not parse makes the whole signature fail |
| Language.ParseDeclarationText | sputnik/language.py:29-44 | a declaration in printed layout parses to its return type, pointer depth, name and each parameter parsed |
| Language.ParseDeclaration | sputnik/language.py:29-44 | parsing the declaration of a function gives its name, return type and depth, and every parameter as parsing keeps it |
| Language.ParsedArgsAreFixed | sputnik/language.py:42 | parameters that came from parsing are unchanged by the parse rule applied again |
| Language.SignatureExampleNoArgs | sputnik/language.py:285 | `void foo();` parses to `foo` with no arguments and an `unnamed` void return |
| LanguageExamples.VariableExamples | sputnik/language.py:251-264 | a depth-0 `void x` is no pointer, `void **foo_bar` is one of depth 2, and renaming it to `bar` changes only the name |
| LanguageExamples.SignatureExampleOneArg | sputnik/language.py:287-291 | `void foo(int x);` parses to `foo` with the one plain `int x` and an `unnamed` void return |
| LanguageExamples.SignatureExampleTwoArgs | sputnik/language.py:293-297 | `void foo(int x, unsigned int **y);` parses to `int x` and `unsigned int` pointer `y` of depth 2 carrying the default array size |
| LanguageExamples.SignatureExampleLongReturn | sputnik/language.py:299-303 | `unsigned long int _foo_bar(int x, unsigned int **y);` keeps the three-word return type `unsigned long int` at depth 0 |
| LanguageExamples.SignatureExampleFourStars | sputnik/language.py:305-309 | `unsigned long int ****_foo_bar(int x, unsigned int **y);` has return depth 4 and the same two parameters |
| LanguageExamples.ForkExampleIsdigit | sputnik/language.py:316-318 | `int isdigit(int c);` parses, and forked as `isdigit` declares as `int isdigit(int c);` and calls as `ret_isdigit = isdigit(c);` |
| LanguageExamples.ForkExampleMemcpy | sputnik/language.py:320-322 | memcpy's declaration parses, and forked as `foo` declares as `void *foo(void *dest, void *src, size_t n);` and calls as `ret_foo = foo(dest, src, n);` |
| LanguageExamples.ForkExamplePointer | sputnik/language.py:324-326 | `unsigned int ***bar(size_t *x);` parses, and forked as `foo` declares as `unsigned int ***foo(size_t *x);` and calls as `ret_foo = foo(x);` |
| Language.Fork | sputnik/language.py:60-69 | the forked function has the new name, the same arguments, no body, and the return variable renamed `ret_<name>` |
| Language.ForkDeclarationRoundTrip | sputnik/language.py:60-92 | a parsed signature forked under a new name declares itself: parsing the declaration gives the signature with the new name |
| Language.DeclarationIsText | sputnik/language.py:76-92 | the declaration is the return type, the name and the comma-separated parameters with a `;`, without a space after a pointer return type |
| Language.DefinitionLines | sputnik/language.py:94-121 | the definition is the header line, `{`, each body line behind a tab, and `}` |
| Language.CallArgAmpersands | sputnik/language.py:135 | a call argument is the name behind one `&` per pointer level beyond the first, none for plain variables and single pointers |
| Language.MemcpyConstDropped | sputnik/language.py:320-322 | the `const` of memcpy's source is dropped, so the forked declaration prints `void *src` |
| Language.VariableEqIsEquivalence | sputnik/language.py:201-202 | variable equality is reflexive, symmetric and transitive |
| Language.VariableEqIgnoresValue | sputnik/language.py:201-202 | the value takes no part in variable equality |
| Language.SignatureEqIgnoresExtraArgs | sputnik/language.py:57-58 | `zip` stops at the shorter list: appending parameters leaves a signature equal to the original |
| Language.SignatureEqNotTransitive | sputnik/language.py:57-58 | hence signature equality is not transitive |
| Verifier.FirstMatch | sputnik/crafter.py:459-468 | the library found is the first earlier library that lib_eval declares equal to library i, and None means no earlier library is equal |
| Verifier.ClusterIds | sputnik/crafter.py:453-478 | every library gets a cluster id between 1 and its own index + 1 |
| Verifier.ClusterIdsPrefix | sputnik/crafter.py:453-478 | the clustering of the first k libraries does not depend on the libraries after them |
| Verifier.ClusterIdAt | sputnik/crafter.py:459-477 | library i opens cluster i + 1 exactly when no earlier library is equal to it, and otherwise takes the id of the first earlier library that is |
| Verifier.CountIsDistinctIds | sputnik/crafter.py:474-477 | `count_cluster` equals the number of distinct cluster ids |
| Verifier.Representative | sputnik/crafter.py:459-468 | the smallest library equal to library i, and no smaller one is equal |
| Verifier.ClusterIdIsRepresentative | sputnik/crafter.py:453-478 | when lib_eval is an equivalence, every library is in the cluster opened by its smallest equal library |
| Verifier.SameClusterIffEqual | sputnik/crafter.py:445-478 | when lib_eval is an equivalence, two libraries share a cluster exactly when lib_eval declares them equal |
| Verifier.AbortsIffSomeUnequal | sputnik/crafter.py:481-483 | when lib_eval is an equivalence, the clustering verifier aborts exactly when some pair of libraries is unequal, which is the verdict of the pairwise verifier |
| Verifier.ValueEvalIsEquivalence | sputnik/crafter.py:527-534 | comparing return values for equality is an equivalence relation |
| Verifier.ValueClusters | sputnik/crafter.py:527-534 | with the return-value lib_eval, two libraries share a cluster exactly when their return values are equal |
| Verifier.ValueClusterCount | sputnik/crafter.py:474-477 | with the return-value lib_eval, `count_cluster` is the number of distinct return values |
| Verifier.AllEqualOneCluster | sputnik/crafter.py:481-483 | when every library returns the same value there is one cluster and no abort |
| Verifier.NonTransitiveMerges | sputnik/crafter.py:459-468 | for a lib_eval that is not transitive the clustering depends on order: with tolerance 1, results 0, 1 and 2 form one cluster although 0 and 2 differ |
| Verifier.CompareBuffers | sputnik/crafter.py:679-683 | the array lib_eval returns 0 exactly when the first `array_width` characters agree, and 1 otherwise |
| Verifier.ArrayEvalIsEquivalence | sputnik/crafter.py:664-685 | the array comparison is an equivalence relation, so the partition theorem holds for it |
| Verifier.Cluster | sputnik/crafter.py:439-478 | the `mapping` array ends up holding the cluster ids of the clustering, and `count_cluster` counts the libraries that opened a cluster |
| Verifier.NewUnallocated | sputnik/crafter.py:439-443 | a fresh `mapping` of one entry per library, every entry UNALLOCATED |
| Verifier.JoinOrOpen | sputnik/crafter.py:454-477 | one round of the clustering loop sets `mapping[i]` to library i's cluster id, leaves later entries UNALLOCATED, and reports whether a new cluster was opened |
| Verifier.TraditionalVerify | sputnik/crafter.py:414-425 | the pairwise verifier aborts exactly when some pair (i, j) is declared unequal |
| Verifier.DigitChar | sputnik/crafter.py:502-503 | a remainder below 10 is written as its decimal digit character |
| Verifier.DigitsLsbFirst | sputnik/crafter.py:500-505 | the digit loop writes nothing for 0 and only decimal digit characters otherwise |
| Verifier.DigitsRoundTrip | sputnik/crafter.py:500-505 | reading the written digits back least significant first recovers the cluster id |
| Verifier.TwelveWrittenReversed | sputnik/crafter.py:500-505 | the digits come out least significant first: cluster id 12 is written as "21" |
| Verifier.WriteAbortMessage | sputnik/crafter.py:486-508 | the 1024-character message holds one line `name:digits` per library in order, padded with NUL characters, and every `mapping[i]` is consumed to 0 |
| Verifier.WriteLine | sputnik/crafter.py:492-507 | one library's line is appended at the write position, the rest of the buffer is untouched and only `mapping[i]` changes, to 0 |
| Verifier.CopyName | sputnik/crafter.py:493-495 | the loop emulating `strcpy` appends the library name without its terminator |
| Verifier.WriteDigits | sputnik/crafter.py:499-505 | the digit loop appends the digits of `mapping[i]` least significant first and leaves `mapping[i]` at 0 |
| Verifier.Verify | sputnik/crafter.py:427-514 | the emitted verifier aborts exactly when more than one cluster was opened, and then its message is the abort text of the clustering padded with NUL characters |
| Prebuild.IntegrityCheck | prebuild.py:157-168 | a warning `@f` for every catalog function f missing from the renaming table, in catalog order, and the error flag exactly when there is a warning |
| Prebuild.MissingIff | prebuild.py:159-163 | `@f` is reported exactly when f is a catalog function whose `@f` the table lacks |
| Prebuild.MissingOnce | prebuild.py:159-163 | for a catalog with distinct function names every warning names a different function |
| Prebuild.IntegrityAgainstModule | prebuild.py:152-163 | against the table that renaming the linked module produces, the check fails exactly when some catalog function is not defined in the module |
| Prebuild.MissingMarked | prebuild.py:160 | every reported name is a symbol name starting with `@` |
| Prebuild.Stem | prebuild.py:58 | `rsplit('.', 1)[0]` is a prefix of the name |
| Prebuild.DestReplacesExtension | prebuild.py:58 | the extension after the last `.` is replaced by `.ll` under the build directory |
| Prebuild.DestWithoutExtension | prebuild.py:58 | a source name without a `.` keeps its whole name and gains `.ll` |
| Prebuild.DestUnderBuildDir | prebuild.py:58 | a relative source is compiled to a path below the build directory |
| Prebuild.NewFilesEntries | prebuild.py:59 | the sources to compile are exactly the listed sources whose destination was not built, each mapped to its destination |
| Prebuild.NewFilesSpec | prebuild.py:59 | a lookup of a source gives its destination exactly when it is listed and its destination is not among the built files |
| Prebuild.PreCompile | prebuild.py:24-84 | the result is the files built before (none after an explicit or forced rebuild) followed by the new destinations that compiled, in order |
| Prebuild.AddedWasNotBuilt | prebuild.py:59-77 | a file the build adds was not built before and is the destination of a listed source that compiled |
| Prebuild.NotBuiltIsAdded | prebuild.py:59-77 | every listed source whose destination was not built and that compiles is added |
| Prebuild.TempNameShape | prebuild.py:94 | the temporary name ends in `.ll`, has no directory part and no other `.` |
| Prebuild.TempNameOfTarget | prebuild.py:94 | for a target `<stem>.<rest>` in any directory the temporary name is `<stem>.ll` |
| Prebuild.TempFilesDiffer | prebuild.py:96-97 | the disassembled file and its renamed copy are two different paths |
| Prebuild.HeaderSetIff | prebuild.py:192 | a header is included exactly when some catalog entry lists it |
| Prebuild.BuildCallWrappers | prebuild.py:172-227 | the wrapper source holds one include line per distinct listed header, a blank line, then the definitions; the header file holds the declarations inside the `__CALL_WRAPPERS` include guard |
| Prebuild.WriteIncludes | prebuild.py:201-204 | every header of the set is written once, and nothing else |
| Prebuild.WriteWrappers | prebuild.py:206-220 | the loop writes the definitions and the declarations of the catalog functions in catalog order |
| Prebuild.DefinitionInPlace | prebuild.py:206-219 | the definition of the i-th catalog function sits between those of the functions before and after it |
| Prebuild.DeclarationInPlace | prebuild.py:206-220 | the declaration of the i-th catalog function sits between those of the functions before and after it |
| Prebuild.WrapperShape | prebuild.py:210-214 | a wrapper is named `lib_entry_<f>`, takes f's arguments, and its definition is the header line, `{`, the tab-indented `return f(<argument names>);` and `}` |
| Prebuild.WrapperRenamedIsEntry | prebuild.py:210 | renamed with a library's prefix, the wrapper is the entry `<library>_lib_entry_<f>` the harness calls |
| Library.DropFirst | sputnik/library.py:19 | `s[1:]`: the string without its first character, and empty for the empty string |
| Library.Build.constructor | sputnik/library.py:10-16 | the build keeps its directory and library name, its blob path is the directory joined with the library name, and both manifests are loaded, empty when unreadable |
| Library.Build.Resolve | sputnik/library.py:18-19 | a KeyError for `@f` exactly when the table has no `@f`; otherwise the renamed symbol without its first character |
| Library.Build.Reload | sputnik/library.py:21-23 | both manifests are replaced by what was read, and a manifest that could not be read becomes empty |
| Library.Build.Flush | sputnik/library.py:25-27 | both manifests are emptied, after which every lookup raises |
| Library.ResolveRenamed | sputnik/library.py:18-19 | with the table that renaming a module produced, resolving a function the module defines gives its prefixed name, the entry the harness calls |
| Library.OverlayIs | sputnik/library.py:124-131 | an attribute given as a keyword argument takes its value, and every other attribute keeps its default |
| Library.Library.constructor | sputnik/library.py:118-133 | the attributes are the defaults overlaid by the keyword arguments, and the fresh build is over `builddir` for the library `name` |
| Library.SetAttrs | sputnik/library.py:124-131 | the `setattr` loop leaves every attribute as its keyword argument gives it, or at its default |
| Library.StripSlash | sputnik/library.py:108-109 | the directory loses one trailing `/` and nothing else |
| Library.LoadedPaths | sputnik/library.py:96-116 | the loaded directory is the configured one under the library path, the build directory is it with suffix `-build`, the renaming table lies directly in the build directory, a relative target lies under it, and every other entry is as configured |
| Library.BuildDirNoSlash | sputnik/library.py:112 | the build directory is never empty and never ends with `/` |
| Library.MappingInBuildDir | sputnik/library.py:114 | the renaming table path is the build directory, `/` and `rename_mapping.json` |
| Library.TrailingSlashIgnored | sputnik/library.py:108-111 | one trailing `/` on the configured directory changes nothing in the loaded configuration |
| Library.LoadedReassigned | sputnik/library.py:111-114 | the configured directory is overwritten, whatever it held |
| Library.WriteDefaultConfig | sputnik/library.py:70-93 | an error exactly when the file exists and overwriting is not forced; otherwise the default configuration is written to `config.json` in the given directory |
| Library.DefaultConfigLoads | sputnik/library.py:74-116 | the default configuration can always be written when forced, and loads |
| Library.Sources | sputnik/library.py:140-161 | the collected sources are the generator's yields, in order |
| Library.CFilesVerbatim | sputnik/library.py:145-148 | traversals that all name `.c` files are yielded as they are, in order, whatever the directories hold |
| CStrings.Len | docs/odd_strcpy/musl_stpcpy.c:33 | the length of a C string is the position of its first NUL byte |
| CStrings.Text | docs/odd_strcpy/musl_stpcpy.c:33 | the C string without its terminator has no NUL byte and the length of the string |
| CStrings.StrcpyCopiesText | docs/odd_strcpy/max_strcpy.c:5 | after a standard `strcpy` the destination holds the same C string as the source |
| MaxStrcpy.StopAt | docs/odd_strcpy/max_strcpy.c:10-14 | the loop returns at the first byte that is NUL or `l`, and at no earlier byte |
| MaxStrcpy.Strcpy | docs/odd_strcpy/max_strcpy.c:5-21 | the copy writes the source up to and including the first NUL or `l` into the destination, leaves every later byte as it was, and returns `dest` |
| MaxStrcpy.SameAsStrcpyWithoutL | docs/odd_strcpy/max_strcpy.c:13 | without an `l` before the terminator the copy behaves as the standard `strcpy` |
| MaxStrcpy.DivergesAtL | docs/odd_strcpy/max_strcpy.c:13 | with an `l` before the terminator the copy stops at the first `l`, and agrees with the standard `strcpy` exactly when the destination already held the rest of the string and its terminator |
| MaxStrcpy.HelloBecomesHel | docs/odd_strcpy/max_strcpy.c:10-14 | copying "hello" into a zeroed buffer yields the string "hel" where the standard `strcpy` yields "hello" |
| MuslStpcpy.HasZeroIff | docs/odd_strcpy/musl_stpcpy.c:6-9 | HASZERO of a word is nonzero exactly when one of its bytes is zero |
| MuslStpcpy.UnpackPack | docs/odd_strcpy/musl_stpcpy.c:29 | storing a loaded word writes back the bytes it was loaded from |
| MuslStpcpy.WordBeforeTerminator | docs/odd_strcpy/musl_stpcpy.c:29 | a word the word loop copies lies wholly before the terminator |
| MuslStpcpy.NulInWord | docs/odd_strcpy/musl_stpcpy.c:29 | the word that holds the terminator has a zero byte, so the word loop stops there |
| MuslStpcpy.WordFits | docs/odd_strcpy/musl_stpcpy.c:29 | every word the loop reads at a word boundary up to the terminator ends within the word holding the terminator |
| MuslStpcpy.CopiedThrough | docs/odd_strcpy/musl_stpcpy.c:11-36 | a destination holding the source through its terminator and its old bytes after it is what the standard `strcpy` leaves |
| MuslStpcpy.StoreWord | docs/odd_strcpy/musl_stpcpy.c:29 | `*wd = *ws` writes the word's bytes at the offset and nothing else |
| MuslStpcpy.Stpcpy | docs/odd_strcpy/musl_stpcpy.c:11-36 | on either path (aligned or not) the destination ends up as the standard `strcpy` leaves it, and the returned offset is that of the terminator it wrote |
| MuslStpcpy.CopyWords | docs/odd_strcpy/musl_stpcpy.c:29 | the word loop copies whole words of the source, stops at or before the terminator, and leaves the rest of the destination untouched |
| MuslStpcpy.CopyBytes | docs/odd_strcpy/musl_stpcpy.c:33 | the byte loop copies the source through its terminator, ends at the terminator, and leaves the rest untouched |
| Crafter.Indented | sputnik/crafter.py:603 | `indent` with its defaults puts one tab in front of every line and keeps the lines and their order |
| Crafter.HelpersMatchPrototypes | sputnik/crafter.py:582-587 | each helper definition emitted after `main` opens with the declarator of its prototype, and the array `lib_eval` has the same declarator as the scalar one |
| Crafter.SymbolicInputIsDeclaredStorage | sputnik/crafter.py:252-273 | for an argument without value, the storage `get_arguments` declares (the whole array of a `char` or `void` buffer, the object otherwise) is exactly what `klee_make_symbolic` marks |
| Crafter.FuzzInputOf | sputnik/crafter.py:275-311 | an input statement exists exactly for the supported types; every seed ends with a newline; only `wint_t` is read raw; every other format starts with `%` |
| Crafter.AppendSeedKeeps | sputnik/crafter.py:308-313 | appending seeds keeps the testcase names and every earlier content; two appends are one append of both seeds; the empty seed changes nothing |
| Crafter.FuzzSpaceStuck | sputnik/crafter.py:310-311 | after the first argument of unsupported type nothing more is generated |
| Crafter.FuzzSpaceOk | sputnik/crafter.py:238-247 | with the fuzzing engine the inputs are generated exactly when every argument without value has a supported type, and then there is one statement per such argument |
| Crafter.SymexSpaceCovers | sputnik/crafter.py:238-273 | with the symbolic engine every argument without value gets exactly one `klee_make_symbolic` call, covering the storage declared for it |
| Crafter.OneAssumptionPerCharPointer | sputnik/crafter.py:372-383 | exactly one assumption per `char` pointer argument and none for any other argument, each naming its own argument |
| Crafter.DistinctAssumptions | sputnik/crafter.py:379-383 | arguments with different names get different assumptions |
| Crafter.AssumedNulInsideBuffer | sputnik/crafter.py:379-381 | with a nonzero width, the NUL assumed for a `char` buffer is at its last declared element, inside the array |
| Crafter.ReturnValuesDeclareStoredResults | sputnik/crafter.py:197-206 | a result variable is declared for exactly the entries whose call stores a result |
| Crafter.EntryNameResolves | sputnik/crafter.py:137-142 | a library whose table lacks the function calls it under its own name (a macro such as `fdim`); with a table from renaming, a defined function is called under its prefixed name |
| Crafter.SignatureEntries | sputnik/crafter.py:137-144 | after the setter each library's entry is the signature forked under its entry name, the last of several libraries with one name winning, and other entries untouched |
| Crafter.SignatureSetsEntries | sputnik/crafter.py:137-144 | after the setter every library has an entry function |
| Crafter.EntriesNamedAfterWrappers | sputnik/crafter.py:173-174 | entries named `<library>_lib_entry_<function>` call the renamed call wrappers |
| Crafter.UnresolvedEntriesCollide | sputnik/crafter.py:137-144 | two libraries whose tables both miss the function get the same entry, the function forked under its own name with return variable `ret_<function>`, and generate_return_values then declares that variable once per library |
| Crafter.ArgumentCacheLookup | sputnik/crafter.py:231-236 | once the arguments are cached, an argument's name looks up the last argument of that name, and a name no argument has keeps its earlier entry |
| Crafter.WrapperEntryIsRenamedWrapper | sputnik/crafter.py:174 | the name `<library>_lib_entry_<function>` is what the call wrapper for the function is called once the library's renaming has run, and the wrapper takes the function's arguments |
| Crafter.SingleLibraryHarness | sputnik/crafter.py:555-620 | a harness for one library is the comment block, the globals and a `main` that reads the inputs, checks the assumptions and calls the entry, with no helper prototypes, verifier call or helper definitions |
| Crafter.ManyLibrariesAddHelpers | sputnik/crafter.py:555-662 | a harness for several libraries adds exactly three blocks: the helper prototypes after the library names, the stores and the `verifier()` call at the end of `main`, and the helper definitions after `main` |
| Crafter.TestHarness.constructor | sputnik/crafter.py:72-99 | one empty entry per library name, the general array width, no signature and no engine, and a clean state |
| Crafter.TestHarness.CleanState | sputnik/crafter.py:101-106 | no cached arguments, the single empty `default` testcase, and no assumptions |
| Crafter.TestHarness.SetEngineSymex | sputnik/crafter.py:108-109 | the engine is the symbolic one |
| Crafter.TestHarness.SetEngineFuzzing | sputnik/crafter.py:111-116 | the engine is the fuzzer, and the testcases are back to the single empty `default` one |
| Crafter.TestHarness.SetSignature | sputnik/crafter.py:123-144 | no signature or an empty text clears it; a text that does not parse raises and leaves everything as it was; otherwise the parsed signature is set and every library's entry is forked from it |
| Crafter.TestHarness.ForkEntries | sputnik/crafter.py:137-144 | the setter's loop assigns every library its forked entry, in order |
| Crafter.TestHarness.NameEntries | sputnik/crafter.py:173-174 | each library's entry is renamed `<library>_lib_entry_<function>`; its arguments and return value stay, and no other entry changes |
| Crafter.TestHarness.GenerateArguments | sputnik/crafter.py:231-236 | every argument of the signature is cached under its name |
| Crafter.TestHarness.DefineAssumptions | sputnik/crafter.py:372-383 | the NUL assumption of every cached `char` pointer is appended to the assumptions |
| Crafter.TestHarness.Prepare | sputnik/crafter.py:155-177 | after a clean state, a missing signature is fetched (failing exactly when the declaration does not parse) and the entries are named after the call wrappers; then the arguments are cached from scratch and their assumptions are the only ones |
| Crafter.TestHarness.PostConfigure | sputnik/crafter.py:166-174 | a signature already set stays as it is; otherwise the fetched one is set and every entry calls its library's call wrapper |
| Crafter.TestHarness.PrepareInputs | sputnik/crafter.py:176-177 | the arguments are cached, then the assumptions about them are appended |
| Crafter.TestHarness.FetchSignature | sputnik/crafter.py:170-174 | the signature is the parsed declaration of the function, with an error exactly when that does not parse, and every entry is renamed after its call wrapper |
| Crafter.TestHarness.GenerateReturnValues | sputnik/crafter.py:197-206 | the declarations of the stored results of the entries, in order |
| Crafter.TestHarness.GetArguments | sputnik/crafter.py:208-229 | one declaration per cached argument, in order |
| Crafter.TestHarness.DefineInputFuzzing | sputnik/crafter.py:275-315 | an unsupported type raises and leaves the testcases alone; otherwise one input statement, with the type's seed appended to every testcase |
| Crafter.TestHarness.DefineInputSpace | sputnik/crafter.py:238-250 | the symbolic engine marks every argument without value and leaves the testcases alone; the fuzzer succeeds exactly when every such type is supported, and the testcases gain the seeds of the arguments it got to |
| Crafter.TestHarness.VerifyPrep | sputnik/crafter.py:546-553 | one store per library, in order, putting library i's return variable at index i |
| Crafter.TestHarness.GenerateVariables | sputnik/crafter.py:321-344 | the result declarations, then the argument declarations, then the empty environment, each after its comment line |
| Crafter.TestHarness.GenerateTestHarnessBody | sputnik/crafter.py:640-662 | fails exactly when the fuzzer meets an unsupported type; otherwise it is the inputs, the assumption checks, the calls and, with several libraries, the stores and the verifier call; the testcases gain the fuzzing seeds |
| Crafter.TestHarness.GenerateTestHarness | sputnik/crafter.py:555-620 | fails exactly when the fuzzer meets an unsupported type; otherwise it is the harness text assembled from the header, the library names, the globals, `main` around the body and, with several libraries, the helpers |

## Left out

- Running the tool chain is not modelled: `subprocess.run` behind `run_command`, and through it `compile_file`, `link`, `assemble` and `disassemble`. The shell's answer for a command line (exit status and error output) is a parameter. The command lines themselves are modelled.
- The working directory is not modelled. `run_command` and `compile_file` take a `cwd` argument (sputnik/compiler.py:57-71), and `pre_compile` and `compile_wrapper` pass the library's directory (prebuild.py:69 and prebuild.py:126). The shell's answer is a function of the command line alone, so relative paths in a command line are not resolved against any directory.
- Python's text-mode line handling is not modelled. `detect_names` and `substitute` read their files with universal newlines, which turn `\r\n` and a lone `\r` into `\n` (sputnik/rename.py:23-51). The model splits the text at `\n` only, so a file with `\r\n` line ends keeps a `\r` at the end of each line.
- Man-page scraping in `function_signature_raw` and `function_signature` is not modelled. `prepare` receives the raw declaration text as a parameter. `build_call_wrappers` receives the signature of each catalog function as a function parameter.
- File and directory I/O is not modelled. This covers reading and writing JSON configurations and manifests, `load_rename_mapping`, `store_included_files`, `store_name_mapping`, `write_test_harness`, `generate_toolchain_fuzzing`, `os.makedirs` in `pre_compile`, the copy to `.unrenamed` in `Builder.rename`, and `generate_tmp_dir` (which also draws random names), `cleanup_tmp_dir`, `copyfile` and `adjust_path`. Whatever is read becomes a parameter, with `None` for a read that fails. `Library.load` starts from the parsed configuration.
- `os.listdir` in `Library.sources` is a parameter giving the `.c` files listed under each traversal.
- The build drivers are not modelled: `Builder.run` apart from its integrity check, `inject_wrappers`, `build_semantic_wrappers`, `build_target`, `build_target_symex`, `build_target_fuzzing`, `build_targets`, `build_targets_array` and `cleanup_all`. They only sequence compiler calls and file operations. This also drops the float step `int(m * 0.2)` of `build_targets_array` and the entry renaming done after a semantic wrapper is built.
- Logging, the `main` functions, `generate_signature_list`, introduce.py and docs/test-example.py are not modelled. The last one only raises `NotImplementedError`.
- The in-file test at sputnik/language.py:250 calls `Variable.parse` without its array-size argument and would raise `TypeError`. It is not modelled. The expected values of the other tests of that file are lemmas, the parses under any default array size.
- Regular expressions are not modelled in general. Each pattern of rename.py and language.py is a hand-written matcher that follows the pattern's greedy and left-to-right choices.
- The class-level configuration of `TestHarness` is not modelled: `load_general_config`, the shared `config` dictionary and `wordsize`. The libraries, the general array width and the `verifier` choice are constructor parameters.
- `TestHarness.description`, `semantic_wrappers` and `tmp` only serve the build drivers and are not modelled.
- `_configure` is meant to be overridden by each test. `Crafter.TestHarness.Prepare` models the default, which sets nothing.
- `engine_wrapper` resolves `<method>_<engine>` with `getattr`; it is modelled as a `match` on the engine. Tests that add methods for further engines are not modelled.
- Crafter.TestHarness.GenerateTestHarness: requires an engine, a signature and an entry function for every library. Without them the source fails with `AttributeError` or `TypeError` in `engine_wrapper` or on `None`, and that failure is not modelled.
- Crafter.TestHarness.GenerateTestHarnessBody: requires an engine and an entry for every library, for the same reason.
- Crafter.TestHarness.DefineInputSpace: requires an engine, for the same reason.
- Crafter.TestHarness.NameEntries: requires every library to have an entry. The source would fail with `AttributeError` on `None`, which `prepare` never reaches, because the signature setter fills every entry first.
- Crafter.TestHarness.GenerateTestHarness: emits the scalar `lib_eval` of `generate_evaluation_function`. `generate_evaluation_function_array` is modelled on its own, and `Verifier.CompareBuffers` models its loop, because only tests that override `generate_evaluation_function` use it.
- Crafter.TestHarness.GenerateTestHarness: takes the text of the clustering verifier (`new_generate_verify_function`) as the parameter `clustering` rather than reproducing its 80 lines of C. `Verifier.Verify` models what that C code does.
- Verifier.WriteAbortMessage: requires the message to fit in the 1024 characters of `message`. An overflow of the emitted C buffer is undefined behaviour and is not modelled.
- Verifier.Verify: requires the message to fit, for the same reason.
- Verifier.DigitChar: states only the decimal case. The `rem > 9` branch cannot be taken, because a remainder of division by 10 is at most 9. `Verifier.DigitsLsbFirst` proves that only decimal digits are written.
- `lib_eval` is a function parameter of the verifier model. The C `int` values it compares are unbounded integers, and `mapping[i]` cannot overflow for the number of libraries a harness links.
- MaxStrcpy.Strcpy: requires the copy to stop inside the destination buffer. Writing past a C buffer is undefined behaviour.
- MuslStpcpy.Stpcpy: requires the word reads of the aligned path to stay inside the source buffer, because the model has no memory beyond it. In C, an aligned word read cannot cross a page boundary, which makes reading past the terminator harmless there.
- MuslStpcpy.Stpcpy: pointer addresses are not modelled. `uintptr_t` alignment arithmetic is replaced by the parameters `aligned` (the two pointers share their offset in a word) and `lead` (the bytes before the source reaches a word boundary). `size_t` is 64 bits wide.
- The text of Python exceptions is not modelled. Each raise becomes an error value naming its cause, such as `KeyError`, `UnsupportedType`, `CompileError` or a parse error.
- `Variable.rename` and `Signature.fork` copy before renaming, so no object is shared. The model renames a `Variable` value by functional update.

## Findings

| source | as written | input that shows it | evidently intended | confidence | as-written member | corrected member |
|---|---|---|---|---|---|---|
| sputnik/compiler.py:24-27 | each tool path is `TOOLS + "clang"`, with no separator between the absolute tool directory and the tool name | `TOOLS` = `/opt/llvm/bin` gives `/opt/llvm/binclang`, a file in `/opt/llvm` | `os.path.join(TOOLS, "clang")`, the tool inside the tool directory | not executed | Compiler.ToolAsWrittenMissesDirectory | Compiler.Tool (used by Compiler.Toolchain) |
