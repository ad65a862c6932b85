# simplesql, modelled and proved in Dafny

simplesql turns Go interfaces with SQL templates in their comments into `database/sql` code. This project models its
template compiler, its row scanner, its transaction manager and the parts of its generator, runner and signature parser
that decide something, and proves what they are for. `dafny verify dfyconfig.toml` checks everything.

## How it is laid out

**The template compiler.** `Tokenizer` cuts a template into text and `{{...}}` actions. A *cut* (`ValidCut`) is defined
without the scanner: text pieces that hold no `{{`, do not touch, and lend no brace to the action after them, and actions
closed by their first `}}`. `NamedParams` defines a bound parameter by the parity of colons (`BoundAt`) and, separately,
what the regular expression finds (`FindAll`). `Templates` holds the tree a template stands for, its token list
(`Flatten`), the recogniser as a function (`Parse`) and its errors by a stack of open ifs (`StackError`). `GoFragment` is
the flat Go code, one `Line` a statement, and a machine that runs it (`Run`), skipping branches not taken and stopping at
a clause or brace out of place, as the section "If statements" of The Go Programming Language Specification has it.
`Compiler` says what a tree *means* (`Meaning`): characters with bound parameters between them, in no dialect, the first
true branch of every if; what a dialect makes of that (`Render`); and what code is emitted for a tree (`Emit`). `OnePass`
and `BodyCompilers` are the object that parses and emits through one cursor; `CompileBody` has the method that drives it
and the end-to-end theorems.

**The row scanner.** `TagIndex` defines a column's field as the last declared one with its tag, reached through embedded
structs only (`TaggedPath`, `LastTagged`), and walks a type into a shared map whose values are heap-allocated path
slices. `ScanRows` has struct values, targets, the row loop and its deferred close.

**The transaction manager.** `Transactions` takes callbacks to be any nested program (`Prog`): statements, inner
`StartTransaction` calls, plain calls, errors swallowed or passed on, panics recovered or not, each on any context in
scope. The database is an event trace with an arbitrary failure for every operation. The protocol is a monitor over traces
(`Watch`, `Monitor`) that knows nothing of programs; where statements go is stated by contexts (`SentOn`) and by the
transactions the monitor has open.

**The rest.** `Generator` (template choice, imports), `Runner` (grouping by output file), `TypeText` (type printer and
return shapes), with `Sorting`, `Sequences`, `Strings` and `Wrappers` below them.

Where the code and its documentation part, the code is followed. `buildReturn`'s comment says that signatures it cannot
express are rejected. With an unsupported type somewhere in it a signature is nevertheless accepted in exactly one family:
two results, the second error, the first a pointer or a slice (`TypeText.UnsupportedAccepted`; `(*func(), error)` in
`TypeText.UnsupportedInside`), while for instance `(map[string]func(), error)` and a lone `*func()` are rejected. And
`buildImportBlock`, which sorts by path only, is the same on every run exactly when no path is imported under two names
(`Generator.BlockDeterministic`); an interface that imports context under its own name gets either of two blocks
(`Generator.ContextRenamed`).

## Model

| member | source | states |
|---|---|---|
| Tokenizer.Tokenize | internal/tokenizer.go:33-58 | The shrinking loop returns what Lex says, errors included. |
| Tokenizer.LexSound | internal/tokenizer.go:33-58 | On success there are pieces that spell the tokens, fit together and concatenate to the whole template. |
| Tokenizer.LexComplete | internal/tokenizer.go:33-91 | Any pieces that spell tokens and fit are what the scanner finds in their concatenation. |
| Tokenizer.LexExact | internal/tokenizer.go:33-91 | The scanner accepts a template with given tokens if and only if the template has a cut into those tokens. |
| Tokenizer.ClassifyExact | internal/tokenizer.go:60-91 | An action is a given token if and only if it looks like one: end, else, a keyword with a space and a trimmed non-empty condition, or another identifier. |
| Tokenizer.IsIdentExact | internal/tokenizer.go:78-91 | An identifier is a non-empty word over the listed letters, underscore and digits that does not begin with a digit. |
| Tokenizer.LexFails | internal/tokenizer.go:33-76 | The scanner rejects a template with a reason if and only if, after some pieces of a cut, what follows an opening brace pair is never closed, or is an action that looks like no token, and that is the reason. |
| Strings.TrimSpaceExact | internal/tokenizer.go:49 | Trimming takes away exactly the white space on either side. |
| Strings.IsSpaceExact | internal/tokenizer.go:49 | White space is the 25 characters with that Unicode property. |
| Tokenizer.PrintThenLex | internal/tokenizer.go:60-76 | A canonical token list, printed with space-padded actions, scans back to itself. |
| Tokenizer.CanonicalExact | internal/tokenizer.go:33-91 | The canonical token lists (trimmed non-empty conditions, identifiers, texts non-empty, apart and without "{{") are exactly those the scanner can return. |
| NamedParams.ColonParity | internal/compiler.go:12-16 | A named match starts at a colon if and only if it ends a run of odd length and an identifier start follows. |
| NamedParams.FindAllOrdered | internal/compiler.go:166 | Matches come in order, disjoint and inside the text; a name is the longest identifier. |
| NamedParams.PiecesWhole | internal/compiler.go:178-188 | Gaps and matches together are the text. |
| NamedParams.FirstMatchAtoms | internal/compiler.go:196-213 | From any resumption point the gap, the first match and the rest are the text's characters and bound parameters by colon parity. |
| Templates.ParseSound | internal/compiler.go:87-152 | A recognised tree is well typed and its tokens are written from the start to the stop position. |
| Templates.ParseComplete | internal/compiler.go:87-152 | A well-typed tree written at a position, up to a stop, is what the recogniser returns, at any nesting depth. |
| Templates.RecognitionExact | internal/compiler.go:64-70 | A token list is accepted with a tree if and only if it is that tree's flattening and every substitution names a string or *string parameter; so stray and doubled clauses and missing ends are rejected. |
| Templates.WellTypedExact | internal/compiler.go:216-235 | A tree is well typed if and only if every substitution among its tokens names a parameter whose type is string or *string. |
| Templates.RejectionExact | internal/compiler.go:64-152 | The recursive recogniser rejects with exactly the error that reading one token after the other with a stack of open ifs meets first: unknown name, wrong type, token out of place, else not followed by its end, missing end. |
| Templates.FlattenInjective | internal/compiler.go:87-152 | One token list has one tree. |
| OnePass.TranslateIsParse | internal/compiler.go:87-152 | Parsing and emitting in one pass gives the old output followed by the code of the tree, or the parser's error. |
| BodyCompilers.BodyCompiler.Walk | internal/compiler.go:87-113 | Output, cursor and error are those of the one-pass translation; the strconv flag says whether a run-time number was emitted. |
| BodyCompilers.BodyCompiler.EmitIfChain | internal/compiler.go:115-152 | The same for an if with all its clauses; the branch for any other token is dead. |
| BodyCompilers.BodyCompiler.EmitClauses | internal/compiler.go:121-151 | The same for the loop over the clauses. |
| BodyCompilers.BodyCompiler.EmitText | internal/compiler.go:154-163 | Appends the text's code for the dialect. |
| BodyCompilers.BodyCompiler.EmitTextMySQL | internal/compiler.go:165-193 | Appends one literal with every placeholder folded in and then the arguments; nothing for empty text. |
| BodyCompilers.FoldPlaceholders | internal/compiler.go:173-188 | The loop over matches computes the text rendered with "?" and the bound names in order. |
| BodyCompilers.BodyCompiler.EmitTextPostgres | internal/compiler.go:195-214 | Appends the text segment by segment. |
| BodyCompilers.BodyCompiler.EmitDirect | internal/compiler.go:216-235 | An unknown name and any type but two are their errors and emit nothing; *string emits the dereferencing line, string the plain one. |
| Compiler.FoldedWrites | internal/compiler.go:165-193 | Run from any machine the folded code writes the text's meaning. |
| Compiler.SegmentedWrites | internal/compiler.go:195-214 | Run from any machine the segmented code writes the text's meaning, numbering from the arguments so far. |
| Compiler.SubstitutionExact | internal/compiler.go:216-235 | For a parameter of type string a substitution means, emits and writes its text; for *string what it points to, and nothing if that is nil. |
| Compiler.BranchTaken | internal/compiler.go:115-152 | An if means its first branch whose condition holds or that is the else, and nothing if there is none. |
| Compiler.ChainCorrect | internal/compiler.go:115-152 | The clauses after a body write the first true one's meaning if no branch was taken, nothing otherwise, and close the block. |
| Compiler.EmitCorrect | internal/compiler.go:87-235 | From any machine, at any depth, the flat code writes the tree's meaning if control is there and nothing if it is not. |
| CompileBody.CompileBody | internal/compiler.go:44-85 | Returns the code of the template's tree and whether it numbers at run time, or the first error. |
| CompileBody.AcceptanceExact | internal/compiler.go:44-70 | A template is compiled as a tree if and only if it scans to the flattening of that well-typed tree. |
| CompileBody.ParamMapExact | internal/compiler.go:50-53 | Every parameter name is in the map, with the last parameter of that name, and no other name is. |
| CompileBody.CompilerCorrect | internal/compiler.go:44-85 | Semantic preservation: in every environment and dialect the code builds exactly the query and arguments the template means. |
| CompileBody.QueryExact | internal/compiler.go:72-83 | Every run builds the meaning's text, and after it the clause exactly for a Postgres insert returning an id whose template lacks the word. |
| CompileBody.AppendsReturningExact | internal/compiler.go:78-79 | The clause is appended if and only if that is so, where the word is any nine characters in a row whose upper case is RETURNING, dotless i included. |
| CompileBody.DialectsAgree | internal/compiler.go:154-214 | All dialects append the same n arguments; between the same n + 1 texts MySQL and SQLite have "?" and Postgres has "$1" to "$n" in order, then the RETURNING clause if there is one. |
| CompileBody.PlaceholdersDistinct | internal/compiler.go:206 | No two placeholders of one query are the same. |
| Strings.ItoaExact | internal/compiler.go:206 | A number is written as its decimal numeral, and as nothing else. |
| CompileBody.BlocksReadBack | internal/compiler.go:87-152 | The emitted code, every line of it, parsed by the template grammar gives back the template's own ifs, with each write and append line in the branch of the text or substitution it came from. |
| CompileBody.LineTokInjective | internal/compiler.go:87-235 | The reading loses nothing: different lines are different tokens. |
| CompileBody.PrefixesRun | internal/compiler.go:115-152 | No prefix of the code has a clause or closing brace out of place. |
| CompileBody.StrconvExact | internal/compiler.go:205-206 | Some line numbers a placeholder at run time if and only if the dialect is Postgres and some text token binds a parameter. |
| TagIndex.Builder.CollectTagIndex | simplesql/scan.go:101-116 | The walk in place leaves the map that Collect says; slices stored earlier keep their contents, and new ones are new objects. |
| TagIndex.BuildTagIndex | simplesql/scan.go:95-99 | Builds that map from nothing. |
| TagIndex.Collected | simplesql/scan.go:101-116 | Visiting a type replaces a column's entry by its last tagged field's path, and leaves columns without one alone. |
| TagIndex.IndexExact | simplesql/scan.go:95-116 | A column is in the index if and only if a field that is no embedded struct, reached through embedded structs only, has a tag that names it, and then with the last declared one's path. |
| TagIndex.BeforeCommaExact | simplesql/scan.go:113 | A tag names the column that is all of it or all before its first comma. |
| TagIndex.TaggedIndexed | simplesql/scan.go:105-114 | A tagged field that is not anonymous is in the index, even if its type is a struct. |
| TagIndex.LastUnique | simplesql/scan.go:101-116 | There is only one last declared field. |
| TagIndex.FieldPathsUnrelated | simplesql/scan.go:101-116 | Paths to fields are equal or unrelated: neither is a prefix of the other. |
| TagIndex.ColumnsUnrelated | simplesql/scan.go:78-116 | Distinct known columns have unrelated paths. |
| ScanRows.FieldPointersFromIndex | simplesql/scan.go:78-90 | The array filled in place has each column's field, or a discarded value for an unknown column. |
| ScanRows.FieldPointers | simplesql/scan.go:67-74 | Targets for a pointer to a struct, an error for anything else. |
| ScanRows.PlaceAfter | simplesql/scan.go:78-90 | After writing cells through targets a place holds the last cell aimed at it, or what it held before. |
| ScanRows.ColumnDecoded | simplesql/scan.go:78-116 | After a row a known column's field holds the cell of the column's last occurrence. |
| ScanRows.UnselectedZero | simplesql/scan.go:78-116 | A field no column names keeps its type's zero value, whatever unknown columns there are. |
| ScanRows.ZeroExact | simplesql/scan.go:51 | A new value has the fields of its type at every path, each with the zero value of its own type. |
| ScanRows.GetSteps | simplesql/scan.go:87 | A path leads step by step, each index to the field of that number. |
| ScanRows.ScanLoop | simplesql/scan.go:50-62 | The slice grows by the decoded rows before the first that fails; pointers are to new, pairwise distinct objects holding those values. |
| ScanRows.ScanRows | simplesql/scan.go:12-63 | Rows are closed exactly once; wrong destinations and column errors change nothing; otherwise the slice is as in ScanLoop; the error is the first that occurred and then the close error, so nil if and only if the destination is accepted and nothing failed. |
| Transactions.ConnectionManager.StartTransaction | simplesql/connection_manager.go:39-72 | Outcome and trace are those of RunStart, for every callback. |
| Transactions.RunKeepsProtocol | simplesql/connection_manager.go:39-72 | Every program, from any point inside open transactions and under any failures, keeps the protocol and leaves the same transactions open. |
| Transactions.ProgramKeepsProtocol | simplesql/connection_manager.go:32-38 | A whole program leaves no transaction open. |
| Transactions.EndedOnce | simplesql/connection_manager.go:45-71 | In a trace that keeps the protocol a transaction begins at most once and is open exactly between its begin and its one end. |
| Transactions.EventsJustified | simplesql/connection_manager.go:45-71 | What follows a callback's end is a commit of its transaction if and only if it returned nil, else the rollback, and these come nowhere else; likewise callback and begin; a statement on a transaction finds it open. |
| Transactions.EveryBeginEnds | simplesql/connection_manager.go:32-38 | In every program's trace each begun transaction has exactly one commit or rollback. |
| Transactions.OwnTransaction | simplesql/connection_manager.go:45-71 | A call on a context without a transaction opens and ends its own; panic values come out unchanged, errors with the rollback's joined, nil as the commit's. |
| Transactions.StatementRouted | simplesql/connection_manager.go:22-30 | A statement goes to the transaction its context carries, and to the pool if it carries none, and the caller sees its error. |
| Transactions.SentTo | simplesql/connection_manager.go:22-30 | All statements a program makes on one context, in any continuation, go to what that context carries. |
| Transactions.CallbackRouted | simplesql/connection_manager.go:24-61 | Every statement a callback makes on its own context goes to the transaction its StartTransaction call joined or has just begun, in every program. |
| Transactions.StatementsInside | simplesql/connection_manager.go:24-61 | In whole programs whose callbacks keep to their own contexts every statement goes to the innermost transaction open, and to the pool exactly when none is open. |
| Transactions.InlineSame | simplesql/connection_manager.go:36-43 | Replacing calls on carrying contexts by plain calls changes neither outcome nor trace, in any scope. |
| Transactions.ReentrancyIsFlattening | simplesql/connection_manager.go:36-43 | Every program equals, in outcome, panic value and trace, its inlined form, which starts transactions only where there is none. |
| Generator.SignaturePreserved | internal/templates.go:28-136 | The template chosen for a method declares the result types its interface was read from, in every dialect. |
| Generator.TemplateExact | internal/generator.go:115-134 | An (int, error) method returns the new row's id if and only if the query is an insert, read from a row exactly for Postgres and else from the driver, and otherwise the rows affected; every other template is chosen by its return kind. |
| Generator.ContextExact | internal/generator.go:157-164 | A leading context.Context is taken out and becomes the context expression; otherwise that is context.Background() and nothing is taken out. |
| Generator.NamesOffered | internal/generator.go:52-55 | The names a template may use are those of all parameters but a leading context. |
| Generator.ReturningPaired | internal/generator.go:115-134 | The form that reads an id from a row is chosen if and only if the run's query has the appended clause or, for a Postgres insert returning an id, the template has the word. |
| Generator.BuildImportBlock | internal/generator.go:168-206 | Renders a block for exactly the base imports, strconv if needed, and the interfaces' imports. |
| Generator.EachOnce | internal/generator.go:169-204 | A block has each import once and no other. |
| Generator.ImportsExact | internal/generator.go:169-182 | The block has, once each, the four fixed imports, strconv if needed and the interfaces' own, and no other. |
| Generator.BlockWellLaidOut | internal/generator.go:184-206 | Standard imports come first and then the others, each by path, with one blank line between if there are both. |
| Generator.StdlibExact | internal/generator.go:217-222 | A path counts as standard if and only if every dot in it has a slash before it. |
| Sorting.LeqExact | internal/generator.go:192-193 | The order is: a prefix first, or the smaller character at the first difference. |
| Generator.BlockDeterministic | internal/generator.go:184-193 | Any imports have a block, and only one if and only if no path is imported under two names. |
| Generator.ContextRenamed | internal/generator.go:169-182 | A request that imports context under its own name beside the base import has two different blocks. |
| Generator.CompileMethods | internal/generator.go:50-63 | Compiles each method without its context parameter, and reports whether one needs strconv, or the first failing method's error. |
| Generator.Generate | internal/generator.go:44-71 | Compiles all methods in order or gives the first failing one's error; strconv is needed if and only if some method needs it; the import block is built from that. |
| Generator.CompiledNumbers | internal/generator.go:59-61 | A method needs strconv if and only if it is compiled for Postgres and its text binds a parameter. |
| Generator.StrconvImported | internal/generator.go:175-182 | strconv is imported if and only if a method needs it or an interface imports it. |
| Runner.MakePlan | internal/runner.go:47-77 | For the keys in order: every file in order of first use with its keys' entries, or the first key that does not split. |
| Runner.GroupKeys | internal/runner.go:60-77 | The same for any list of configured keys, filling the map of groups and the order of files in one loop. |
| Runner.PlanExact | internal/runner.go:61-76 | The i-th entry of a file is for the i-th key of its group: the key's configured output joined to the directory is that file, and the entry has the joined part before the last slash, the name after it and the struct name. |
| Runner.PlanFiles | internal/runner.go:60-71 | The files are those some key is configured for, each once. |
| Runner.SplitKeyExact | internal/runner.go:117-124 | A key splits at its last slash, and only a key without one fails. |
| Runner.GroupExact | internal/runner.go:61-76 | A key is in its own file's group and no other. |
| Runner.GroupsPartition | internal/runner.go:61-76 | The groups together are a permutation of the keys. |
| Runner.GroupSorted | internal/runner.go:49-58 | Keys rise within a group. |
| Runner.FilesByLeastKey | internal/runner.go:60-71 | Files come in the order of their least keys. |
| Runner.PlanDeterministic | internal/runner.go:49-58 | Map iteration order does not show: the contract of MakePlan allows one outcome only, plan or error. |
| TypeText.ReadUnique | internal/parser.go:333-348 | No expressible type's text can be continued or cut short into another's. |
| TypeText.TextInjective | internal/parser.go:333-348 | Different expressible types have different texts. |
| TypeText.ReadText | internal/parser.go:333-348 | Reading back a type's text by Go's syntax gives the type, and leaves whatever follows it. |
| TypeText.BuildReturn | internal/parser.go:283-331 | Rejects at the first result without text, counted from one, and otherwise decides by the texts; succeeds exactly on the accepted signatures. |
| TypeText.AcceptedIsRendered | internal/parser.go:299-330 | An accepted signature is decoded into a canonical shape that stands for exactly that signature. |
| TypeText.RenderedIsAccepted | internal/parser.go:299-330 | Every canonical shape is decoded from the signature it stands for. |
| TypeText.AcceptedExact | internal/parser.go:283-331 | A signature of well-named types is accepted if and only if it is empty, error alone, or error after int, a pointer or a slice. |
| TypeText.RejectedExact | internal/parser.go:299-330 | Which of the four reasons a signature of types with text is rejected for, and that there is no other. |
| TypeText.UnsupportedAccepted | internal/parser.go:275-331 | A signature with an unsupported type anywhere in it is accepted if and only if it is a pointer or a slice followed by error. |
| TypeText.UnsupportedInside | internal/parser.go:320-321 | A concrete signature with an unsupported type inside a pointer that is accepted. |

## Left out

- The text of the emitted Go code: a line stands for the statement in its comment, strconv.Quote being exact; indentation and gofmt are not modelled.
- The meaning of SQL and of `{{if}}` expressions: a condition is any boolean of the environment, well formed and free of the generated names.
- Whether bound names are parameters: the compiler does not check it, and the model's environments give every name a value.
- A RETURNING clause that a template has only inside an if: the code tests the raw template, and so does the model.
- Invalid UTF-8 in templates and keys: text is a sequence of characters.
- strings.ToUpper on characters whose upper case is not an ASCII letter: they cannot matter in a search for an ASCII word.
- Files, YAML, logging, go/ast, go/format, text/template and error wrapping: errors are tagged values and errors.Join is list concatenation.
- filepath.Join is an arbitrary function, and filepath.ToSlash the identity, as it is where the separator is a slash.
- The second half of the runner, which parses and writes file by file: input and output only.
- The Go type checking that turns a driver's value into a field's: a row is the values converted before the first that fails.
- Spare capacity shared by a destination slice and other slices: the slice's contents are a sequence.
- Unexported tagged fields, and the panic reflection would raise on them.
- ScanRows.Rows stands for database/sql's rows: it closes nothing by itself at the end of iteration.
- Contexts that outlive their callback, runtime.Goexit, goroutines, and several managers under one context key.
- usedImports and defaultImportName, which are heuristics, and extractSQL and buildParams.
- Grouped named results, which buildReturn counts by field: each result has its own field here.
- Array lengths, which exprToString drops: TypeText.Array is a slice.
