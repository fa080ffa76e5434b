# i18n call rewriting, modelled in Dafny

This project models the Babel plugin of `@shopify/react-i18n` that gives
`useI18n()` / `withI18n()` calls their translation-loading arguments at build
time. For every named import of `useI18n` or `withI18n` from
`@shopify/react-i18n`, the plugin:

- takes the references of the imported binding and keeps those whose parent is a
  call expression without arguments;
- throws when more than one such call remains, naming the binding and the count;
- derives, from the `mode` option, a fallback-locale import, the index import ID
  `__shopify__i18n_translations`, and the dictionary import ID
  `__shopify__i18n_dictionary`;
- when the translation files the mode needs exist, prepends the imports to the
  program body with successive `unshift` calls and replaces the one call with a
  call that carries the generated arguments, including an ID made from the
  file's base name and a hash of its path.

Files:

- `wrappers.dfy` (`Wrappers`): the `Option` type, for JavaScript's `undefined`.
- `paths.dfy` (`Paths`): Node's POSIX `path.basename` and `path.extname`, as
  far as `generateID` uses them.
- `ast.dfy` (`Ast`): the part of the Babel tree the plugin touches. A `Tree`
  is the program body plus a table of the expression nodes that parent the
  references; a reference is known by its parent's node path.
- `rewrite.dfy` (`I18nRewrite`): the decision on values. It covers
  eligibility, the "exactly one" rule, the mode table, existence gating, the
  generated imports and call, the visit of a declaration's specifiers (a left
  fold that stops at the first error), `generateID` and the error text.
- `plugin.dfy` (`I18nPlugin`): the in-place part as classes. `ProgramPath`
  holds the mutable body and nodes, with `InsertImport` (the `unshift`
  sequence), `ReplaceWith` and `AddI18nArguments`. `PluginState` holds the
  visitor state, with the `Program` and `ImportDeclaration` visitors. The
  latter runs the `forEach` loop and is proved equal to the fold in
  `I18nRewrite`.
- `properties.dfy` (`I18nProperties`): lemmas that relate several operations.

## Model

| member | source | states |
|---|---|---|
| `I18nRewrite.ReferencesToRewrite` | packages/react-i18n/src/babel-plugin/index.ts:42-48 | a reference is kept exactly when it is one of the binding's references and its parent is a call whose arguments are missing or empty; the first kept reference is the first eligible one; nothing is kept exactly when no reference is eligible |
| `I18nRewrite.ReferencesToRewriteCount` | packages/react-i18n/src/babel-plugin/index.ts:42-48 | each eligible reference is kept as many times as it occurs among the binding's references, and no other reference is kept, so the count in the error is the number of eligible references |
| `I18nRewrite.Decide` | packages/react-i18n/src/babel-plugin/index.ts:50-89 | no eligible reference gives no change; more than one gives the error naming the binding and the count; a rewrite happens exactly when there is one eligible reference and the mode's translation files exist; its target is the parent of every eligible reference, is a zero-argument call, and receives the imports and call derived from the mode |
| `I18nRewrite.SoleReferenceToRewrite` | packages/react-i18n/src/babel-plugin/index.ts:54-60 | when exactly one reference is kept, every eligible reference of the binding is that one |
| `I18nRewrite.DeriveImportIds` | packages/react-i18n/src/babel-plugin/index.ts:121-140 | the fallback (default locale, fresh identifier) is present exactly when mode is not from-generated-dictionary; the index ID is set exactly in from-generated-index mode, the dictionary ID exactly in from-generated-dictionary mode, with their fixed names; never both |
| `I18nRewrite.InsertedImports` | packages/react-i18n/src/babel-plugin/index.ts:151-181 | every inserted statement is an import; none is inserted exactly when no ID and no fallback is set; the dictionary import comes first and the fallback import last |
| `I18nRewrite.Apply` | packages/react-i18n/src/babel-plugin/index.ts:78-89 | a rewrite puts its imports in front of the original body and sets its target node to the generated call; nothing else changes, and any other decision leaves the tree alone |
| `I18nRewrite.SpecifierDecision` | packages/react-i18n/src/babel-plugin/index.ts:106-144 | a specifier that is not a named `useI18n`/`withI18n` import with a binding changes nothing; a handled one gets the decision for its local name's binding with the mode's imports and its own fresh fallback identifier; a failure names the local name and a count above one |
| `I18nRewrite.ImportDeclarationOutcome` | packages/react-i18n/src/babel-plugin/index.ts:101-103 | a declaration whose source is not `@shopify/react-i18n` leaves the tree unchanged and raises no error |
| `I18nRewrite.HashPrefix` | packages/react-i18n/src/babel-plugin/index.ts:216-218 | `substr(0, 5)`: a prefix of the hash of length five, or the whole hash when it is shorter |
| `I18nRewrite.GenerateId` | packages/react-i18n/src/babel-plugin/index.ts:215-222 | the ID ends with `_` followed by the hash prefix, and what comes before the `_` has no `/` and, with the file's extension appended, is the file's base name |
| `I18nRewrite.DecimalString` | packages/react-i18n/src/babel-plugin/index.ts:56-58 | the count is rendered as a non-empty string of digits, without leading zeros, whose decimal value is the count |
| `I18nRewrite.Message` | packages/react-i18n/src/babel-plugin/index.ts:55-59 | the error text starts with "You attempted to use", the binding name, then the count in canonical decimal (no leading zeros), then the fixed explanation |
| `Paths.Basename` | packages/react-i18n/src/babel-plugin/index.ts:220 | the base name is a suffix of the path without `/`, preceded in the path by a `/` unless it is the whole path |
| `Paths.SegmentExtension` | packages/react-i18n/src/babel-plugin/index.ts:219 | the extension is a proper suffix of the base name that starts with its only `.`; it is empty exactly when the base name has no `.` after its first character or is `..` |
| `Paths.Extname` | packages/react-i18n/src/babel-plugin/index.ts:219 | the extension of the path is the extension of its base name: empty when the base name has no `.` after its first character or is `..`, otherwise the suffix starting at the last `.` |
| `Paths.WithoutSuffix` | packages/react-i18n/src/babel-plugin/index.ts:220 | `path.basename(p, ext)` with `ext` a suffix of the base name: the result followed by `ext` is the base name, and it has no `/` when the base name has none |
| `I18nPlugin.ProgramPath.InsertImport` | packages/react-i18n/src/babel-plugin/index.ts:151-181 | the three conditional `unshift` calls (fallback, then index, then dictionary) leave the body as the inserted imports followed by the old body; the nodes do not change |
| `I18nPlugin.ProgramPath.ReplaceWith` | packages/react-i18n/src/babel-plugin/index.ts:80 | the node at the target path becomes the new node; the body does not change |
| `I18nPlugin.ProgramPath.AddI18nArguments` | packages/react-i18n/src/babel-plugin/index.ts:31-90 | the new tree is the old tree with the binding's decision applied, and the error is returned exactly when the decision is a failure |
| `I18nPlugin.PluginState.VisitProgram` | packages/react-i18n/src/babel-plugin/index.ts:94-96 | the visitor state remembers the program path |
| `I18nPlugin.PluginState.VisitImportDeclaration` | packages/react-i18n/src/babel-plugin/index.ts:97-185 | the specifier loop leaves the program and the error exactly as the fold over the specifiers prescribes, starting from the tree before the visit |
| `I18nProperties.GatingByMode` | packages/react-i18n/src/babel-plugin/index.ts:62-76 | in index or dictionary mode the files count as available exactly when `index.js` exists; in the default mode exactly when there is at least one JSON file |
| `I18nProperties.ImportOrderByMode` | packages/react-i18n/src/babel-plugin/index.ts:151-181 | the inserted head of the body is [fallback] in the default mode, [index, fallback] in index mode and [dictionary] in dictionary mode |
| `I18nProperties.AddArgumentsEffect` | packages/react-i18n/src/babel-plugin/index.ts:50-89 | no eligible call, too many calls, or missing translation files leave the tree as it was (with the error only for too many); otherwise the body gains the imports in front and exactly the sole eligible call's node is replaced by the generated call |
| `I18nProperties.GeneratedCallIsNotEligible` | packages/react-i18n/src/babel-plugin/index.ts:81-88 | the call built by the `i18nCallExpression` template carries one options argument, so a rewritten call is never eligible for a second rewrite |
| `I18nProperties.StepPrependsImports` | packages/react-i18n/src/babel-plugin/index.ts:78-89 | one binding's visit only puts imports in front of the body |
| `I18nProperties.ForEachKeepsBody` | packages/react-i18n/src/babel-plugin/index.ts:106-184 | after a declaration's visit the body is some imports followed by the original body in its original order |
| `I18nProperties.StepKeepsIneligibleNodes` | packages/react-i18n/src/babel-plugin/index.ts:78-89 | one binding's visit keeps the set of nodes and changes only a zero-argument call |
| `I18nProperties.ForEachKeepsIneligibleNodes` | packages/react-i18n/src/babel-plugin/index.ts:42-48 | a visit neither adds nor removes nodes and never changes a node that is not a zero-argument call, so calls with arguments and non-call parents are never touched |
| `I18nProperties.ForEachErrorNamesBinding` | packages/react-i18n/src/babel-plugin/index.ts:54-60 | a visit only fails with a count above one, naming the local name of a handled specifier of the declaration |
| `I18nProperties.ForEachIgnoresUnhandled` | packages/react-i18n/src/babel-plugin/index.ts:107-119 | when no specifier is a named `useI18n`/`withI18n` import with a binding, the visit changes nothing and raises no error |
| `I18nProperties.ForEachUnhandledHead` | packages/react-i18n/src/babel-plugin/index.ts:107-119 | a specifier that is not handled is skipped: the visit goes on with the rest from the same tree |
| `I18nProperties.ForEachSkipsUnhandledPrefix` | packages/react-i18n/src/babel-plugin/index.ts:107-119 | unhandled specifiers in front of position `i` are skipped: the visit equals the visit of the specifiers from `i` on |
| `I18nProperties.ForEachHandledHead` | packages/react-i18n/src/babel-plugin/index.ts:106-144 | a handled first specifier either fails the visit with its error, on the tree as it was, or is applied before the rest are visited |
| `I18nProperties.ForEachReachesHandled` | packages/react-i18n/src/babel-plugin/index.ts:106-144 | when the first handled specifier does not fail, the visit equals the visit of the specifiers after it, starting from the tree that specifier's decision produced |
| `I18nProperties.ForEachIgnoresUnhandledSuffix` | packages/react-i18n/src/babel-plugin/index.ts:107-119 | unhandled specifiers after position `i` leave the tree as it is and raise no error |
| `I18nProperties.DeclarationRewritesSoleCall` | packages/react-i18n/src/babel-plugin/index.ts:97-184 | a `@shopify/react-i18n` declaration whose one handled specifier has exactly one zero-argument call, with the mode's translation files present, ends with the mode's imports in front of the body and that call replaced by the generated call, with no error |
| `I18nProperties.DeclarationFailsOnRepeatedUse` | packages/react-i18n/src/babel-plugin/index.ts:54-60 | in a `@shopify/react-i18n` declaration, the first handled specifier with more than one zero-argument call fails the visit with its name and count, before anything is inserted or replaced |

## Left out

- packages/react-network/src/test/hooks.test.tsx: a React test harness whose parsing logic lives in a module that is not part of this model.
- Babel's traversal and scope machinery: the tree is a body sequence plus a node table. References are node paths. `getBinding` is a lookup in a `scope` map. Each ImportDeclaration is visited on its own, after the Program visitor (`VisitImportDeclaration` requires the program path to be set).
- I18nPlugin.PluginState.VisitImportDeclaration, I18nRewrite.Decide: they require that every reference's parent is a node of the tree. In Babel this holds by construction.
- `generateUidIdentifier(camelCase(locale))`: the fresh names are an input, one per specifier (`uids`). The model does not record the identifier in the scope, which Babel does even when no rewrite follows.
- `string-hash` and `Number.toString(36)`: the base-36 hash of the file name is an input (`SourceFile.filenameHash36`).
- `glob.sync`, `path.resolve` and `path.dirname`: whether `index.js` exists and the list of `*.json` paths are inputs (`SourceFile`).
- The `importModule` and `i18nCallExpression` templates (`babel-templates.ts` is not part of this model): an import becomes the record `ImportModule(id, from)`, and the generated call becomes a call expression whose one argument is the options record `I18nCallParams`.
- The constants `TRANSLATION_DIRECTORY_NAME` and `DEFAULT_FALLBACK_LOCALE`: they are the fields of a `Shared` parameter.
- The `mode` option is modelled with its three typed values. An untyped caller's other strings take the default path in the source too.
- Paths.Basename: does not strip trailing `/` as Node does, because a compiled file name never ends in one. Windows separators are not modelled.
- Thrown errors become an error value. Changes made for earlier specifiers of the same declaration stay in the tree, as they do in the source, where the AST was already mutated.
- `specifier.imported` is modelled as a name. A string-literal imported name, whose `.name` is undefined in the source, is not modelled.
- `this.file.opts.filename` is always a string here. Babel can leave it undefined, and `path.dirname` and `path.extname` then throw; that path is not modelled.
- Two handled specifiers in index or dictionary mode each prepend an import with the same fixed ID, so the body can hold that import twice. The model states this as written; whether Babel accepts the duplicate declaration is outside the model.
