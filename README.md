# Test-file rewriting plugin: a Dafny model

The plugin has two IDE actions that rewrite Java test code into a form where
every object construction is replaced by a placeholder string literal
`"<Instantiate T>"`.

- **The batch action** (`ModifyAllTestFilesAction`):
  1. Finds every Java file of the project that has a method annotated
     `@org.junit.Test` or `@org.junit.jupiter.api.Test`.
  2. Writes a manifest row for each such file. The row pairs the test
     `FooTest.java` with the class under test `Foo.java`.
  3. Parses a copy of the file and deletes from it every Mockito stubbing
     (`when…`) or verification (`verify…`) statement.
  4. Walks every method body. It replaces local-variable initializers, `new`
     expressions and `mock(X.class)` calls on the right of assignments, and
     fields annotated `@Mock`.
  5. Records one row `(test suite, test case, class name, mocked)` per
     instantiation whose type is not on an allow-list of basic JDK types.
  6. Saves the rewritten copy and the sheet of rows.
- **The single-file action** (`ModifyJavaTestASTAction`) rewrites one selected
  file. It gives every local variable that a declaration statement directly
  in a method body declares with an initializer the placeholder for its
  presentable type. The result is written beside the original as
  `Modified_<name>`.

The model is organised by module:

| module | what it models |
|---|---|
| `Syntax` | The IDE's syntax tree (PSI), as the datatype `Node` and the file, class, method and field records around it. |
| `Strings` | The `java.lang.String` operations the code relies on. |
| `TypeClassifier` | The allow-list `BASIC_TYPES`, as the constant `BasicTypeList`, and `isBasicType` over a given allow-list. |
| `Seqs` | Facts about sequences that the proofs about the loops use. |
| `Placeholder` | The placeholder text, the clean-up of the local-variable path, and when the element factory accepts a placeholder as a string literal. |
| `MockitoPruner` | The deletion of Mockito statements, as functions and as the recursive method. |
| `Instantiation` | The batch action's walk, as functions returning the rewritten value and the rows recorded. |
| `TestFiles` | The test-file test, the class-under-test naming convention and the manifest row. |
| `ModifyAllTestFiles` | The batch action, as a class whose `records` field is the list of sheet rows its methods append to. Each method is proved equal to the functions of `Instantiation`. |
| `ModifyJavaTestAst` | The single-file action. Its loops are proved equal to an all-or-nothing rewrite function: an exception from the element factory is not caught there, so it ends the action without writing anything. |

The classification takes the allow-list as a parameter. The batch action's
object holds it in its `basicTypes` field, set to `BasicTypeList` when the
object is created, and passes it down. The single-file action has no
allow-list; `NoBasicTypeExemption` compares it against `BasicTypeList`.

Behaviours of the code that the model keeps as written:

- A local variable is classified by its canonical type text, but its
  placeholder is built from its presentable text, cleaned of every character
  outside `[a-zA-Z0-9_.]`. The two texts can differ.
- The record list is a field of the action object (line 58 of
  `ModifyAllTestFilesAction.java`) and is never cleared. Every run appends
  the sheet's header to it first (line 79), so a second run repeats the
  header and the first run's rows. See Findings.
- On the assignment path the row is recorded before the replacement is
  tried. A failed replacement therefore still leaves its row. On the `@Mock`
  field path the row is recorded only after a successful replacement.
- The Mockito pruner matches by prefix. Any name starting with `when` or
  `verify` (`whenever`, `verifyAll`) is pruned. A chained
  `when(x).thenReturn(y)` is pruned through its qualifier text.
- The pruner does not descend into a call, so a Mockito call nested inside
  another call is kept. A statement the pruner deleted is still walked by
  the detector. A local variable inside it is skipped, because it is no
  longer valid. For an assignment inside it, see `Instantiation.RecordAndReplace`
  under "Left out".
- `java.util.List<java.lang.String>` (with its type argument) and
  `java.util.ArrayList` are on the allow-list as literal strings.

Source paths below are relative to the repository root.

## Model

| member | source | states |
|---|---|---|
| TypeClassifier.BasicTypeReadsCanonicalOnly | src/main/java/com/example/plugin/ModifyAllTestFilesAction.java:438-447 | the classification reads only the canonical text and the primitive flag: two types that differ only in their presentable text are classified alike |
| TypeClassifier.ExactMatchOnly | src/main/java/com/example/plugin/ModifyAllTestFilesAction.java:438-447 | membership is exact string equality: the raw `java.util.ArrayList` is basic, and `java.util.ArrayList<java.lang.Integer>`, which is not itself listed, is not |
| TypeClassifier.ClassNameClassification | src/main/java/com/example/plugin/ModifyAllTestFilesAction.java:334 | a missing type is never basic; on the expression path the class name's type is basic exactly when the name itself is one of the allow-list's entries (exact string equality) |
| TypeClassifier.TypeByName | src/main/java/com/example/plugin/ModifyAllTestFilesAction.java:334 | the type built from a class name is a non-primitive type whose canonical text is that name |
| TypeClassifier.ListedGenericAndRawTypes | src/main/java/com/example/plugin/ModifyAllTestFilesAction.java:34-56 | `java.util.List<java.lang.String>` and `java.util.ArrayList` are basic |
| Strings.RemoveAll | src/main/java/com/example/plugin/ModifyAllTestFilesAction.java:155 | `replace(".java", "")` never lengthens the name and leaves a name without `.java` unchanged |
| Strings.RemoveAllShrinks | src/main/java/com/example/plugin/ModifyAllTestFilesAction.java:155 | where the target occurs, at least one whole copy of it is deleted |
| TestFiles.RemoveBeforeSuffix | src/main/java/com/example/plugin/ModifyAllTestFilesAction.java:155 | in `c + ".java" + b` with no `.java` in `c`, the deletion keeps `c` whole, drops that `.java` and goes on with `b` |
| Strings.StartsWithIsPrefix | src/main/java/com/example/plugin/ModifyAllTestFilesAction.java:267-273 | the prefix test holds exactly when the string is the prefix followed by something |
| Placeholder.PlaceholderRoundTrip | src/main/java/com/example/plugin/ModifyAllTestFilesAction.java:343 | the type text is read back exactly from its placeholder `<Instantiate T>` |
| Placeholder.Sanitize | src/main/java/com/example/plugin/ModifyAllTestFilesAction.java:451 | the cleaned text holds only `[a-zA-Z0-9_.]`, is no longer than the input, and equals the input when that already holds only such characters |
| Placeholder.SanitizeChar | src/main/java/com/example/plugin/ModifyAllTestFilesAction.java:451 | one character is kept exactly when it is in `[a-zA-Z0-9_.]` |
| Placeholder.SanitizeConcat | src/main/java/com/example/plugin/ModifyAllTestFilesAction.java:451 | the clean-up of a concatenation is the concatenation of the clean-ups, so it works character by character and keeps the order |
| Placeholder.TrimSanitizedIsIdentity | src/main/java/com/example/plugin/ModifyAllTestFilesAction.java:451 | the `trim()` after the clean-up changes nothing |
| Placeholder.SanitizedPlaceholderLexes | src/main/java/com/example/plugin/ModifyAllTestFilesAction.java:449-462 | the placeholder built from cleaned-up type text is always a well-formed string literal, so the local-variable replacement never reaches its failure branch |
| Placeholder.PlainTextLexes | src/main/java/com/example/plugin/ModifyAllTestFilesAction.java:343-346 | text with no double quote, backslash or line break is accepted as a string literal's content |
| Placeholder.QuoteBreaksPlaceholder | src/main/java/com/example/plugin/ModifyAllTestFilesAction.java:343-351 | a type text holding an unescaped double quote gives a placeholder that the element factory rejects |
| MockitoPruner.IsMockitoStubbing | src/main/java/com/example/plugin/ModifyAllTestFilesAction.java:267-269 | a name is a stubbing exactly when it is `Mockito.when` or `when` followed by anything |
| MockitoPruner.IsMockitoAsserting | src/main/java/com/example/plugin/ModifyAllTestFilesAction.java:271-273 | a name is a verification exactly when it is `Mockito.verify` or `verify` followed by anything |
| MockitoPruner.PrefixTestsMatchLongerNames | src/main/java/com/example/plugin/ModifyAllTestFilesAction.java:267-273 | every name that starts with `when`, `Mockito.when`, `verify` or `Mockito.verify` counts as stubbing or verification |
| MockitoPruner.FindAndRemoveMockitoCalls | src/main/java/com/example/plugin/ModifyAllTestFilesAction.java:238-262 | the recursive method deletes exactly what the pruning function deletes: an expression statement whose call is a Mockito call goes, and any other element keeps its place with its descendants pruned |
| MockitoPruner.PruneSlot | src/main/java/com/example/plugin/ModifyAllTestFilesAction.java:258-260 | pruning an optional child is the pruning function on it |
| MockitoPruner.PruneChildren | src/main/java/com/example/plugin/ModifyAllTestFilesAction.java:258-260 | pruning the children in order is the list-pruning function |
| MockitoPruner.PruneIsClean | src/main/java/com/example/plugin/ModifyAllTestFilesAction.java:238-262 | after pruning, no Mockito statement that the pruner can reach is left |
| MockitoPruner.CleanIsFixed | src/main/java/com/example/plugin/ModifyAllTestFilesAction.java:238-262 | a tree without such statements is left unchanged |
| MockitoPruner.PruneChangesIffUnclean | src/main/java/com/example/plugin/ModifyAllTestFilesAction.java:238-262 | pruning changes a tree exactly when the tree holds a reachable Mockito statement |
| MockitoPruner.PruneIdempotent | src/main/java/com/example/plugin/ModifyAllTestFilesAction.java:238-262 | pruning twice is pruning once |
| MockitoPruner.PruneNeverDooms | src/main/java/com/example/plugin/ModifyAllTestFilesAction.java:238-262 | pruning the inside of an element never makes the element itself deletable |
| MockitoPruner.PruneListKeepsOthers | src/main/java/com/example/plugin/ModifyAllTestFilesAction.java:249-252 | a pruned child list is shorter by exactly the number of deletable statements, and a list without one is pruned element by element |
| MockitoPruner.PruneListAt | src/main/java/com/example/plugin/ModifyAllTestFilesAction.java:249-260 | every statement that is not deleted survives pruned, in order: the one at index i lands at i less the number of deleted statements before it |
| MockitoPruner.PruneListConcat | src/main/java/com/example/plugin/ModifyAllTestFilesAction.java:258-260 | pruning two runs of children one after the other gives the two pruned runs concatenated |
| MockitoPruner.ChainedStubbingIsDoomed | src/main/java/com/example/plugin/ModifyAllTestFilesAction.java:241-252 | `when(x).thenReturn(y);` as a statement is deleted, because its full name starts with `when` |
| MockitoPruner.CallsAreNeverEntered | src/main/java/com/example/plugin/ModifyAllTestFilesAction.java:239-256 | a call is never searched inside: a Mockito call in an initializer survives, and a non-Mockito call statement is kept whole |
| Instantiation.InstantiationSite | src/main/java/com/example/plugin/ModifyAllTestFilesAction.java:301-326 | a `new` expression with a class reference is a site that is not mocked, named by its qualified class name; a call that is the mock factory with exactly one class-literal argument is a mocked site, named by the literal's canonical type text; nothing else is a site |
| Instantiation.MockCallForms | src/main/java/com/example/plugin/ModifyAllTestFilesAction.java:218-231 | the mock factory is `mock(X.class)` or `Mockito.mock(X.class)` only: any other name, or any other qualifier text such as `org.mockito.Mockito`, is not a site |
| Instantiation.RecordAndReplace | src/main/java/com/example/plugin/ModifyAllTestFilesAction.java:332-352 | nothing is recorded exactly when the class is basic; otherwise one row (file, method, class, mocked) is recorded, and the expression becomes the placeholder exactly when it is still in the tree and the factory accepts the placeholder |
| Instantiation.LocalStep | src/main/java/com/example/plugin/ModifyAllTestFilesAction.java:355-378 | a row is recorded exactly when the variable is still in the tree, has an initializer and is not basic; the row names the canonical type and whether the initializer text starts with `mock(` or `Mockito.mock(`; the initializer then becomes the placeholder of the cleaned-up presentable type; type and name stay |
| Instantiation.HandleInstantiation | src/main/java/com/example/plugin/ModifyAllTestFilesAction.java:301-326 | the right-hand side never grows, and it changes only when it is recorded and still in the tree; when it changes it becomes the placeholder of the site's class name, and it does so whenever the site is off the allow-list, still in the tree and its placeholder is accepted |
| Instantiation.AssignmentSiteRecords | src/main/java/com/example/plugin/ModifyAllTestFilesAction.java:284-289 | a right-hand side is recorded exactly when it is an instantiation site whose class is off the allow-list, in one row naming that class and its mocked flag |
| Instantiation.FailedReplacementStillRecords | src/main/java/com/example/plugin/ModifyAllTestFilesAction.java:338-351 | when the placeholder is rejected, the row is kept and the expression stays as it was |
| Instantiation.DeclaredStep | src/main/java/com/example/plugin/ModifyAllTestFilesAction.java:279-282 | an element that is not a local variable is kept and records nothing; an element never grows, and changes only when a row is recorded and it is still in the tree |
| Instantiation.LocalsStepAt | src/main/java/com/example/plugin/ModifyAllTestFilesAction.java:278-283 | the walk over a declaration's elements is, at every position, the walk of the elements before it, then that element through `DeclaredStep`, then the elements after it, values and rows concatenated in that order |
| Instantiation.LocalsStepConcat | src/main/java/com/example/plugin/ModifyAllTestFilesAction.java:278-283 | walking two runs of declared elements one after the other gives the two results concatenated, values and rows in order |
| Instantiation.Step | src/main/java/com/example/plugin/ModifyAllTestFilesAction.java:277-290 | an element's own step never grows it and changes it only when it records something while attached |
| Instantiation.ProcessKeepsTree | src/main/java/com/example/plugin/ModifyAllTestFilesAction.java:276-295 | the walk of a detached element, or one that records nothing, leaves the element unchanged |
| Instantiation.ProcessRows | src/main/java/com/example/plugin/ModifyAllTestFilesAction.java:276-295 | every row in the walk's output is a data row: it names the file, the method and a type off the allow-list, and says "true" or "false" |
| Instantiation.ProcessSeqAt | src/main/java/com/example/plugin/ModifyAllTestFilesAction.java:292-294 | the walk over children is, at every position, the walks of the children before it, then that child's whole walk `Process`, then the children after it, values and rows concatenated in order |
| Instantiation.ProcessSeqConcat | src/main/java/com/example/plugin/ModifyAllTestFilesAction.java:292-294 | walking two runs of children one after the other gives the two results concatenated |
| Instantiation.ProcessChild | src/main/java/com/example/plugin/ModifyAllTestFilesAction.java:276-295 | after the walk of an element, its i-th child is the walk of the i-th child the element's own step left, and the rows of the step and of that child's walk are all among the element's rows |
| Instantiation.ProcessChildRowsInOrder | src/main/java/com/example/plugin/ModifyAllTestFilesAction.java:276-295 | the walk's rows are in pre-order: the element's own step's rows, then the walks of the children before the i-th, then the i-th child's walk, then the walks of the children after it |
| Instantiation.WalkReachesNested | src/main/java/com/example/plugin/ModifyAllTestFilesAction.java:276-295 | every element the walk reaches along a path of children ends up, at the same path in the walked tree, as its own walk, and the rows of its own step are among the rows of the whole walk |
| Instantiation.NestedAssignmentRecorded | src/main/java/com/example/plugin/ModifyAllTestFilesAction.java:284-289 | an assignment reached at any depth whose right side is a site off the allow-list records that site's row; when it is in the tree and the placeholder is accepted, the walked tree holds the assignment with its left side walked and the placeholder on the right |
| Instantiation.NestedLocalRecorded | src/main/java/com/example/plugin/ModifyAllTestFilesAction.java:277-283 | a local variable with an initializer and a non-basic type, declared at any depth the walk reaches, records its row (canonical type, mock-factory flag) and ends up with the placeholder of its cleaned-up presentable type |
| Instantiation.ProcessReplacedAssignment | src/main/java/com/example/plugin/ModifyAllTestFilesAction.java:284-294 | an assignment whose right side was replaced keeps the placeholder after the walk; only its left side is walked further |
| Instantiation.ProcessReplacedLocal | src/main/java/com/example/plugin/ModifyAllTestFilesAction.java:355-378 | a local variable holding a placeholder is left alone by the walk and records nothing |
| Instantiation.ProcessLiteral | src/main/java/com/example/plugin/ModifyAllTestFilesAction.java:276-295 | a string literal is left alone by the walk and records nothing |
| Instantiation.MethodBodyStepAt | src/main/java/com/example/plugin/ModifyAllTestFilesAction.java:207-212 | the body walk is, at every statement, the walk of the statements before it, then that statement's step (a deleted Mockito statement contributes its rows only; any other is pruned and walked in the tree), then the statements after it, in order |
| Instantiation.MethodBodyStepConcat | src/main/java/com/example/plugin/ModifyAllTestFilesAction.java:207-212 | walking two runs of statements one after the other gives the two results concatenated |
| Instantiation.MethodBodyWalksPrunedStatements | src/main/java/com/example/plugin/ModifyAllTestFilesAction.java:207-212 | the new body is exactly the tree walk of the statements the pruner keeps, each pruned, in order |
| Instantiation.BodyRecordsNested | src/main/java/com/example/plugin/ModifyAllTestFilesAction.java:207-212 | every element reached inside any statement of the body, deleted statements included, has the rows of its own step among the body's rows |
| Instantiation.MethodBodyRows | src/main/java/com/example/plugin/ModifyAllTestFilesAction.java:207-212 | every row recorded for a body, deleted statements included, is a data row of that file and method |
| Instantiation.ReplaceMockField | src/main/java/com/example/plugin/ModifyAllTestFilesAction.java:407-435 | a `@Mock` field is rewritten exactly when it records; a row is recorded exactly when the type is not basic and the placeholder of its canonical text is accepted; the row is `CLASS_LEVEL`, "true"; the new field has the placeholder as initializer and no annotations or modifiers |
| Instantiation.MockFieldsStepPointwise | src/main/java/com/example/plugin/ModifyAllTestFilesAction.java:383-389 | a field without `@Mock` is untouched, and each `@Mock` field is rewritten on its own |
| Instantiation.MockFieldsRows | src/main/java/com/example/plugin/ModifyAllTestFilesAction.java:383-389 | every field row is a class-level data row of the file |
| Instantiation.MethodsStepPointwise | src/main/java/com/example/plugin/ModifyAllTestFilesAction.java:195-201 | a method without a body is unchanged; a method with one keeps its name and annotations and gets the body walk `MethodBodyStep` of its body |
| Instantiation.ClassStep | src/main/java/com/example/plugin/ModifyAllTestFilesAction.java:192-202 | a class keeps its name; each field carrying `@Mock` becomes its `ReplaceMockField` and every other field is kept; each method is rewritten on its own, a body becoming its `MethodBodyStep` |
| Instantiation.ClassesStepAt | src/main/java/com/example/plugin/ModifyAllTestFilesAction.java:192-202 | the walk over a file's classes is, at every position, the classes before it, then that class's `ClassStep`, then the classes after it, values and rows concatenated in that order |
| Instantiation.ClassesStepConcat | src/main/java/com/example/plugin/ModifyAllTestFilesAction.java:192-202 | walking two runs of classes one after the other gives the two results concatenated |
| Instantiation.ClassesStepPointwise | src/main/java/com/example/plugin/ModifyAllTestFilesAction.java:192-202 | the i-th class of the result is the `ClassStep` of the i-th class |
| Instantiation.ModifiedContent | src/main/java/com/example/plugin/ModifyAllTestFilesAction.java:181-204 | a copy that does not parse as Java comes back as the original text with nothing recorded; otherwise the rewritten tree has as many classes as the parsed copy, and its i-th class is the `ClassStep` of the parsed i-th class |
| Instantiation.ModifiedContentRows | src/main/java/com/example/plugin/ModifyAllTestFilesAction.java:181-204 | every row recorded for a file names that file and a type off the allow-list |
| TestFiles.ContainsTestAnnotation | src/main/java/com/example/plugin/ModifyAllTestFilesAction.java:99-111 | the scan answers true exactly when some method of some class carries one of the two `@Test` annotations |
| TestFiles.ExtractTestClassName | src/main/java/com/example/plugin/ModifyAllTestFilesAction.java:151-156 | a name ending in `Test.java` loses exactly that suffix; no name grows |
| TestFiles.TestFileNameRoundTrip | src/main/java/com/example/plugin/ModifyAllTestFilesAction.java:151-154 | the class name comes back from `<Class>Test.java` |
| TestFiles.PlainFileNameRoundTrip | src/main/java/com/example/plugin/ModifyAllTestFilesAction.java:155 | a file `<Class>.java` not named after the test convention gives back its base name, when that holds no `.java` of its own |
| TestFiles.FindCutFile | src/main/java/com/example/plugin/ModifyAllTestFilesAction.java:162-173 | nothing is found exactly when no project file is named `<cut>.java`; otherwise the path of the first such file |
| TestFiles.RecordTestFile | src/main/java/com/example/plugin/ModifyAllTestFilesAction.java:136-149 | the manifest row holds the test file's name and path; then the class named by the convention and the path of the first project file named after it, or "Not Found" twice when no project file is |
| TestFiles.ConventionPairsTestWithClass | src/main/java/com/example/plugin/ModifyAllTestFilesAction.java:136-173 | `FooTest.java` is paired with `Foo` and the path of the first project file named `Foo.java`, whenever the project holds one |
| TestFiles.ConventionWithoutClassNotFound | src/main/java/com/example/plugin/ModifyAllTestFilesAction.java:136-173 | `FooTest.java` gets "Not Found" for both class and path when no project file is named `Foo.java` |
| ModifyAllTestFiles.RowsOfAreFileRows | src/main/java/com/example/plugin/ModifyAllTestFilesAction.java:85-92 | every sheet row of a run belongs to one of the project's test files, names a type off the allow-list and says "true" or "false" |
| ModifyAllTestFiles.NoHeaderAmongRows | src/main/java/com/example/plugin/ModifyAllTestFilesAction.java:79 | no recorded row can be taken for the header |
| ModifyAllTestFiles.SecondRunRepeatsHeader | src/main/java/com/example/plugin/ModifyAllTestFilesAction.java:58-79 | with the list kept across runs, the second run's sheet holds two headers and repeats the first run's rows |
| ModifyAllTestFiles.FreshSheetHasOneHeader | src/main/java/com/example/plugin/ModifyAllTestFilesAction.java:79 | a sheet started from nothing has exactly one header, in its first row |
| ModifyAllTestFiles.Index | src/main/java/com/example/plugin/ModifyAllTestFilesAction.java:163-165 | the model's file-name index lists every project file's name and path, each once, in the order of the file-type listing (an assumption about the index; see `ModifyAllTestFiles.Index` under Left out) |
| ModifyAllTestFiles.ModifyAllTestFilesAction.constructor | src/main/java/com/example/plugin/ModifyAllTestFilesAction.java:58 | the action starts with an empty list of rows and with `BasicTypeList` as its allow-list |
| ModifyAllTestFiles.ModifyAllTestFilesAction.RecordAndReplaceExpression | src/main/java/com/example/plugin/ModifyAllTestFilesAction.java:332-352 | appends to the list and returns exactly what `RecordAndReplace` gives |
| ModifyAllTestFiles.ModifyAllTestFilesAction.HandleInstantiationExpression | src/main/java/com/example/plugin/ModifyAllTestFilesAction.java:301-326 | appends to the list and returns exactly what `HandleInstantiation` gives |
| ModifyAllTestFiles.ModifyAllTestFilesAction.ReplaceWithPseudoCode | src/main/java/com/example/plugin/ModifyAllTestFilesAction.java:449-462 | the placeholder of the cleaned-up presentable type is accepted, and the variable gets it as initializer |
| ModifyAllTestFiles.ModifyAllTestFilesAction.ProcessLocalVariable | src/main/java/com/example/plugin/ModifyAllTestFilesAction.java:355-378 | appends to the list and returns exactly what `LocalStep` gives |
| ModifyAllTestFiles.ModifyAllTestFilesAction.ProcessDeclaredElement | src/main/java/com/example/plugin/ModifyAllTestFilesAction.java:279-282 | a declared local variable is processed and anything else is kept without a row: exactly `DeclaredStep` |
| ModifyAllTestFiles.ModifyAllTestFilesAction.ProcessDeclaredElements | src/main/java/com/example/plugin/ModifyAllTestFilesAction.java:278-283 | the loop over declared elements is `LocalsStep` |
| ModifyAllTestFiles.ModifyAllTestFilesAction.ProcessPsiElement | src/main/java/com/example/plugin/ModifyAllTestFilesAction.java:276-295 | the recursive walk appends to the list and returns exactly what `Process` gives |
| ModifyAllTestFiles.ModifyAllTestFilesAction.ProcessChildren | src/main/java/com/example/plugin/ModifyAllTestFilesAction.java:292-294 | the loop over children is `ProcessSeq` |
| ModifyAllTestFiles.ModifyAllTestFilesAction.ModifyBodyChild | src/main/java/com/example/plugin/ModifyAllTestFilesAction.java:208-211 | a deleted Mockito statement is dropped but its walk's rows are recorded; any other child is pruned and walked |
| ModifyAllTestFiles.ModifyAllTestFilesAction.ModifyMethodBody | src/main/java/com/example/plugin/ModifyAllTestFilesAction.java:207-212 | the loop over a body is `MethodBodyStep` |
| ModifyAllTestFiles.ModifyAllTestFilesAction.ReplaceMockFieldWithPseudoCode | src/main/java/com/example/plugin/ModifyAllTestFilesAction.java:407-435 | appends to the list and returns exactly what `ReplaceMockField` gives |
| ModifyAllTestFiles.ModifyAllTestFilesAction.CheckMockAnnotation | src/main/java/com/example/plugin/ModifyAllTestFilesAction.java:395-402 | the scan over a field's annotations answers true exactly when one of them is `org.mockito.Mock` |
| ModifyAllTestFiles.ModifyAllTestFilesAction.ModifyMockFields | src/main/java/com/example/plugin/ModifyAllTestFilesAction.java:383-389 | the loop over fields is `MockFieldsStep` |
| ModifyAllTestFiles.ModifyAllTestFilesAction.ModifyMethods | src/main/java/com/example/plugin/ModifyAllTestFilesAction.java:195-201 | the loop over methods is `MethodsStep` |
| ModifyAllTestFiles.ModifyAllTestFilesAction.CreateModifiedContent | src/main/java/com/example/plugin/ModifyAllTestFilesAction.java:181-204 | the nested loops over classes, fields and methods give `ModifiedContent` and append its rows |
| ModifyAllTestFiles.ModifyAllTestFilesAction.RunFiles | src/main/java/com/example/plugin/ModifyAllTestFilesAction.java:82-93 | for each Java file with a test, in order: its manifest row, its rewritten copy and its sheet rows |
| ModifyAllTestFiles.ModifyAllTestFilesAction.ActionPerformedAsWritten | src/main/java/com/example/plugin/ModifyAllTestFilesAction.java:68-97 | without a project nothing happens; otherwise the header is appended to the rows already held, then the run's rows, and the whole list is the saved sheet |
| ModifyAllTestFiles.ModifyAllTestFilesAction.ActionPerformed | src/main/java/com/example/plugin/ModifyAllTestFilesAction.java:68-97 | as above, but the sheet starts from nothing: one header, then this run's rows |
| ModifyJavaTestAst.MapAllSome | src/main/java/com/example/plugin/ModifyJavaTestASTAction.java:87-105 | a completed all-or-nothing rewrite is the element-wise rewrite |
| ModifyJavaTestAst.MapAllNone | src/main/java/com/example/plugin/ModifyJavaTestASTAction.java:87-105 | the rewrite aborts exactly when some element's rewrite fails |
| ModifyJavaTestAst.PlaceholderFor | src/main/java/com/example/plugin/ModifyJavaTestASTAction.java:110-118 | a placeholder exists exactly when the factory accepts `<Instantiate T>` for the presentable text T, and T reads back from it |
| ModifyJavaTestAst.RewriteElement | src/main/java/com/example/plugin/ModifyJavaTestASTAction.java:94-101 | an element other than a local with an initializer is kept; a local with one fails exactly when its placeholder is rejected, and otherwise gets the placeholder of its presentable type, type and name kept |
| ModifyJavaTestAst.RewriteBody | src/main/java/com/example/plugin/ModifyJavaTestASTAction.java:87-105 | a completed rewrite of a body keeps the number of statements (the pointwise content is `BodyRewritePointwise`) |
| ModifyJavaTestAst.ReplaceWithPseudoCode | src/main/java/com/example/plugin/ModifyJavaTestASTAction.java:110-118 | the variable gets the placeholder of its presentable type, type and name kept; it fails exactly when the factory rejects the placeholder |
| ModifyJavaTestAst.BodyRewritePointwise | src/main/java/com/example/plugin/ModifyJavaTestASTAction.java:87-105 | after a completed rewrite, statements other than declaration statements are untouched, and in each declaration statement every local with an initializer holds its placeholder while every other element is untouched |
| ModifyJavaTestAst.BodyAbortsIffRejected | src/main/java/com/example/plugin/ModifyJavaTestASTAction.java:87-118 | the rewrite of a body aborts exactly when a directly declared local has an initializer whose placeholder is rejected |
| ModifyJavaTestAst.PlainTypesNeverAbort | src/main/java/com/example/plugin/ModifyJavaTestASTAction.java:87-118 | a body whose directly declared locals have plain type texts is always rewritten |
| ModifyJavaTestAst.QuotedTypeAborts | src/main/java/com/example/plugin/ModifyJavaTestASTAction.java:110-118 | a local whose type text holds a bare double quote aborts the whole action |
| ModifyJavaTestAst.NoBasicTypeExemption | src/main/java/com/example/plugin/ModifyJavaTestASTAction.java:94-101 | a basic-typed local that the batch action leaves alone is rewritten by this action |
| ModifyJavaTestAst.ModifyMethodBody | src/main/java/com/example/plugin/ModifyJavaTestASTAction.java:87-105 | the loop over the body's declaration statements gives exactly `RewriteBody`, including its abort |
| ModifyJavaTestAst.ModifyDeclaredElements | src/main/java/com/example/plugin/ModifyJavaTestASTAction.java:93-103 | the inner loop over one statement's declared elements gives exactly the all-or-nothing `MapAll` of `RewriteElement`: None as soon as one replacement is rejected |
| ModifyJavaTestAst.CreateModifiedContent | src/main/java/com/example/plugin/ModifyJavaTestASTAction.java:58-82 | the loops over classes and methods give exactly `ModifiedContent`: the original text when the copy is not Java, otherwise the rewritten tree or an abort |
| ModifyJavaTestAst.RewriteMethod | src/main/java/com/example/plugin/ModifyJavaTestASTAction.java:73-78 | a method aborts exactly when it has a body whose rewrite aborts; otherwise name and annotations are kept, no body stays no body, and a body becomes its `RewriteBody` |
| ModifyJavaTestAst.RewriteClass | src/main/java/com/example/plugin/ModifyJavaTestASTAction.java:72-79 | a class aborts exactly when one of its methods does; otherwise name and fields are kept and each method is rewritten on its own |
| ModifyJavaTestAst.ModifiedContent | src/main/java/com/example/plugin/ModifyJavaTestASTAction.java:58-82 | a copy that is not Java comes back as the original text; otherwise the action aborts exactly when some class's rewrite aborts, and a completed rewrite has as many classes, the i-th being the rewrite of the parsed i-th class |
| ModifyJavaTestAst.ModifiedContentPointwise | src/main/java/com/example/plugin/ModifyJavaTestASTAction.java:58-82 | after a completed rewrite each method of each class keeps name and annotations and its body becomes `RewriteBody` of the old body; the action aborts exactly when some method of some class has a body whose rewrite aborts |
| ModifyJavaTestAst.Extension | src/main/java/com/example/plugin/ModifyJavaTestASTAction.java:33 | there is no extension exactly when the name has no dot; otherwise it is the dot-free text after the last dot |
| ModifyJavaTestAst.JavaNamesPass | src/main/java/com/example/plugin/ModifyJavaTestASTAction.java:33 | every name of the form `X.java` passes the extension check |
| ModifyJavaTestAst.UpperCaseExtensionFails | src/main/java/com/example/plugin/ModifyJavaTestASTAction.java:33 | the check is case-sensitive: `X.JAVA` fails it |
| ModifyJavaTestAst.ModifiedPath | src/main/java/com/example/plugin/ModifyJavaTestASTAction.java:125 | the copy's path is exactly the original's directory, then `/Modified_`, then the original name: it starts with the first two, ends with the name, and has exactly the length of the three together |
| ModifyJavaTestAst.ActionPerformed | src/main/java/com/example/plugin/ModifyJavaTestASTAction.java:24-53 | a file is written exactly when a project is open, a file is selected, its extension is exactly `java`, it has a syntax tree and the rewrite does not abort; what is written is the rewritten content at the `Modified_` path |

## Left out

- File output is left out: creating the CSV manifest file, the XLSX workbook, the results directory and the saved copies, with their `IOException` handling. Only the rows and the content that would be written are modelled.
- CSV quoting of manifest fields is left out. The manifest is a sequence of rows, header first.
- Logging and the hard-coded output paths are left out.
- The IDE services are left out: the file-type and file-name indexes, `PsiManager`, write commands and `createFileFromText`. The project's Java files are given as a sequence in the order the index returns them.
- Reparsing a file's text is assumed to give the tree the IDE already holds for it. Printing a tree back to text is not modelled: a rewritten copy is the rewritten tree.
- The element factory is modelled as accepting a placeholder exactly when its content lexes as the inside of one Java string literal. Any other text is treated as rejected, even text that would parse as some other expression.
- `createFieldFromText` is assumed to succeed whenever the placeholder was accepted.
- `getTypeByName` is modelled by `TypeByName`, a class type whose canonical text is the given name. The lookup of that name in the project is left out.
- Nested and inner classes are left out: only a file's top-level classes and their methods are visited.
- Instantiation.RecordAndReplace: on a statement the pruner deleted, the model assumes that an assignment's site still records its row and that only the replacement fails (caught at line 349). The code calls `getProject()` on that element outside the `try` (line 334), and the IDE may throw there instead. Nothing in `actionPerformed` (lines 68-96) catches that, so the run would end without a sheet. This abort is not modelled.
- `isValid` checks are modelled only as "the element was deleted by the pruner". A null type is left out.
- TestFiles.FindCutFile: a match in the index whose syntax tree cannot be found (`Optional.ofNullable` giving empty) is not modelled. The first matching index entry is taken as found.
- ModifyAllTestFiles.Index: the name lookup (`FilenameIndex.getVirtualFilesByName`, lines 163-165) is a separate query from the file-type listing (line 82). The code takes the first element its iterator gives (line 171), and that order is not specified. The model assumes the name lookup lists same-named files in the order of the file-type listing. When two project files share the name `<cut>.java` (the same class name in two packages or modules), the program leaves open which path the manifest gets. `RecordTestFile` and `ConventionPairsTestWithClass` instead fix it to the first one in that listing.
- ModifyJavaTestAst.ModifiedContent: the replacements already applied to the temporary copy before an exception are not modelled, because nothing is written after an abort.
- ModifyJavaTestAst.Extension: the IDE's own extension rule is taken as "the text after the last dot". Corner cases of file names the IDE may treat differently are left out.
- Instantiation.Process: the walk is characterised through its children (`ProcessChild`, `WalkReachesNested`) and through what it records and replaces at any depth (`NestedAssignmentRecorded`, `NestedLocalRecorded`). Below one level (`ProcessChildRowsInOrder`), the order of rows is not restated: at any depth the lemmas say only that each reached step's rows are among the walk's rows.

## Findings

| source | as written | input that shows it | evidently intended | confidence | as-written member | corrected member |
|---|---|---|---|---|---|---|
| src/main/java/com/example/plugin/ModifyAllTestFilesAction.java:58-79 | the row list is a field of the action object; each run appends a header to it and it is never cleared | run the action twice on the same project with the same action object: the second sheet holds two headers and the first run's rows again | each run's sheet holds one header, in its first row, followed by that run's rows: the header is appended at the start of every run (line 79), which only makes sense for a sheet that starts empty | not executed | ModifyAllTestFiles.ModifyAllTestFilesAction.ActionPerformedAsWritten, ModifyAllTestFiles.SecondRunRepeatsHeader | ModifyAllTestFiles.ModifyAllTestFilesAction.ActionPerformed, ModifyAllTestFiles.FreshSheetHasOneHeader |
