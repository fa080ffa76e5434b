/**
 * The rewrite decision of the i18n Babel plugin, stated on values.
 *
 * For every named import of `useI18n` or `withI18n` from
 * `@shopify/react-i18n`, the plugin looks at the binding's references, keeps
 * the zero-argument calls, refuses more than one, and, when translation files
 * exist next to the compiled file, prepends translation imports to the
 * program and gives the one call its arguments.
 */
module I18nRewrite {
  import opened Wrappers
  import opened Ast
  import Paths

  const I18N_CALL_NAMES: seq<string> := ["useI18n", "withI18n"]
  const PACKAGE_NAME: string := "@shopify/react-i18n"
  const TRANSLATION_INDEX_IMPORT_ID: string := "__shopify__i18n_translations"
  const TRANSLATION_DICTIONARY_IMPORT_ID: string := "__shopify__i18n_dictionary"
  const TOO_MANY_CALLS_LEAD: string := "You attempted to use "
  const TOO_MANY_CALLS_TAIL: string := " times in a single file. This is not supported by the Babel plugin that automatically inserts translations."

  /** The plugin's `mode` option; an absent option is `Default`. */
  datatype Mode = Default | FromGeneratedIndex | FromGeneratedDictionary

  /** The two constants the plugin shares with the rest of the package. */
  datatype Shared = Shared(translationDirectoryName: string, defaultFallbackLocale: string)

  /**
   * What the plugin learns about the file being compiled from outside the
   * tree: its name, the base-36 rendering of the name's hash, whether the
   * translation directory holds an `index.js`, and the `*.json` files it holds.
   */
  datatype SourceFile = SourceFile(
    filename: string,
    filenameHash36: string,
    translationIndexExists: bool,
    translationFilePaths: seq<string>)

  /** The identifiers the visitor derives from the mode, one set per specifier. */
  datatype ImportIds = ImportIds(
    fallback: Option<Fallback>,
    translationIndexImportID: Option<string>,
    translationDictionaryImportID: Option<string>)

  datatype PluginError = TooManyCalls(bindingName: string, count: nat)

  /** What `addI18nArguments` does for one binding. */
  datatype Decision =
    | Unchanged
    | Fail(error: PluginError)
    | Rewrite(target: NodeId, imports: seq<Statement>, call: Node)

  /** The state after visiting import specifiers, and the error that stopped the visit, if any. */
  datatype VisitResult = VisitResult(tree: Tree, error: Option<PluginError>)

  // ---------------------------------------------------------------------------
  // Identifiers derived from the mode

  /**
   * The fallback, index ID and dictionary ID for one specifier; `fallbackUid`
   * is the fresh identifier the scope hands out for the default locale.
   */
  function DeriveImportIds(mode: Mode, shared: Shared, fallbackUid: string): (ids: ImportIds)
    ensures ids.fallback.Some? <==> mode != FromGeneratedDictionary
    ensures ids.fallback.Some? ==>
      ids.fallback.value.locale == shared.defaultFallbackLocale && ids.fallback.value.id == fallbackUid
    ensures ids.translationIndexImportID.Some? <==> mode == FromGeneratedIndex
    ensures ids.translationIndexImportID.Some? ==> ids.translationIndexImportID.value == TRANSLATION_INDEX_IMPORT_ID
    ensures ids.translationDictionaryImportID.Some? <==> mode == FromGeneratedDictionary
    ensures ids.translationDictionaryImportID.Some? ==>
      ids.translationDictionaryImportID.value == TRANSLATION_DICTIONARY_IMPORT_ID
    ensures !(ids.translationIndexImportID.Some? && ids.translationDictionaryImportID.Some?)
  {
    var fromGeneratedIndex := mode == FromGeneratedIndex;
    var fromGeneratedDictionary := mode == FromGeneratedDictionary;
    ImportIds(
      if fromGeneratedDictionary then None else Some(Fallback(shared.defaultFallbackLocale, fallbackUid)),
      if fromGeneratedIndex then Some(TRANSLATION_INDEX_IMPORT_ID) else None,
      if fromGeneratedDictionary then Some(TRANSLATION_DICTIONARY_IMPORT_ID) else None)
  }

  /** The translations come from a generated index or dictionary rather than from JSON files. */
  predicate FromGeneratedFiles(ids: ImportIds) {
    ids.translationDictionaryImportID.Some? || ids.translationIndexImportID.Some?
  }

  // ---------------------------------------------------------------------------
  // Which references are rewritten

  /** A call expression whose arguments are missing or empty. */
  predicate IsZeroArgumentCall(n: Node) {
    n.CallExpression? && (n.arguments.None? || |n.arguments.value| == 0)
  }

  predicate EligibleIn(nodes: map<NodeId, Node>, r: Reference)
    requires r.parentPath in nodes
  {
    IsZeroArgumentCall(nodes[r.parentPath])
  }

  /** The references whose parent is a zero-argument call, in their original order. */
  function ReferencesToRewrite(nodes: map<NodeId, Node>, refs: seq<Reference>): (rw: seq<Reference>)
    requires Resolves(nodes, refs)
    ensures |rw| <= |refs|
    ensures forall r :: r in rw <==> r in refs && EligibleIn(nodes, r)
    ensures rw != [] ==>
      exists i :: 0 <= i < |refs| && refs[i] == rw[0] &&
        forall j :: 0 <= j < i ==> !EligibleIn(nodes, refs[j])
    ensures rw == [] <==> forall j :: 0 <= j < |refs| ==> !EligibleIn(nodes, refs[j])
    decreases |refs|
  {
    if refs == [] then []
    else
      var rest := ReferencesToRewrite(nodes, refs[1..]);
      assert forall j :: 1 <= j < |refs| ==> refs[j] == refs[1..][j - 1];
      if EligibleIn(nodes, refs[0]) then [refs[0]] + rest
      else
        assert rest != [] ==> exists i :: 1 <= i < |refs| && refs[i] == rest[0] &&
                                           forall j :: 0 <= j < i ==> !EligibleIn(nodes, refs[j]) by {
          if rest != [] {
            var i :| 0 <= i < |refs[1..]| && refs[1..][i] == rest[0] &&
              forall j :: 0 <= j < i ==> !EligibleIn(nodes, refs[1..][j]);
            assert refs[i + 1] == rest[0];
          }
        }
        rest
  }

  /**
   * The filter keeps every eligible reference as often as it occurs, so its
   * length is the number of zero-argument calls among the references.
   */
  lemma {:induction false} ReferencesToRewriteCount(nodes: map<NodeId, Node>, refs: seq<Reference>)
    requires Resolves(nodes, refs)
    ensures var rw := ReferencesToRewrite(nodes, refs);
      forall r :: multiset(rw)[r] == if r in refs && EligibleIn(nodes, r) then multiset(refs)[r] else 0
    decreases |refs|
  {
    if refs != [] {
      ReferencesToRewriteCount(nodes, refs[1..]);
      assert refs == [refs[0]] + refs[1..];
      assert multiset(refs) == multiset{refs[0]} + multiset(refs[1..]);
    }
  }

  // ---------------------------------------------------------------------------
  // Existence gating, generated nodes and the decision

  /** Whether the translation files the mode needs are present. */
  predicate TranslationsAvailable(ids: ImportIds, file: SourceFile) {
    if FromGeneratedFiles(ids) then file.translationIndexExists
    else |file.translationFilePaths| > 0
  }

  /** `substr(0, 5)` of the hash: its first five characters, or all of it when shorter. */
  function HashPrefix(filenameHash36: string): (h: string)
    ensures |h| <= 5 && h <= filenameHash36
    ensures |h| == 5 || h == filenameHash36
  {
    if |filenameHash36| < 5 then filenameHash36 else filenameHash36[..5]
  }

  /** `generateID`: the file's base name without extension, `_`, and the hash prefix. */
  function GenerateId(filename: string, filenameHash36: string): (id: string)
    ensures var h := HashPrefix(filenameHash36);
      |id| > |h| && id[|id| - |h| - 1] == '_' && id[|id| - |h|..] == h &&
      Paths.Free(id[..|id| - |h| - 1], '/')
    ensures var h := HashPrefix(filenameHash36);
      |id| > |h| && id[..|id| - |h| - 1] + Paths.Extname(filename) == Paths.Basename(filename)
  {
    var h := HashPrefix(filenameHash36);
    var base := Paths.Basename(filename);
    var extension := Paths.Extname(filename);
    var legible := Paths.WithoutSuffix(base, extension);
    JoinedParts(legible, h);
    legible + "_" + h
  }

  /** The two parts of `legible + "_" + h` can be read back from its ends. */
  lemma JoinedParts(legible: string, h: string)
    ensures var id := legible + "_" + h;
      |id| > |h| && id[|id| - |h| - 1] == '_' && id[|id| - |h|..] == h && id[..|id| - |h| - 1] == legible
  {
    var id := legible + "_" + h;
    assert id[..|id| - |h| - 1] == legible;
    assert id[|legible| + 1..] == h;
  }

  /** The imports `insertImport` leaves at the head of the body, first to last. */
  function InsertedImports(ids: ImportIds, shared: Shared): (imports: seq<Statement>)
    ensures forall k :: 0 <= k < |imports| ==> imports[k].ImportModule?
    ensures imports == [] <==> ids == ImportIds(None, None, None)
    ensures ids.translationDictionaryImportID.Some? ==>
      imports[0] == ImportModule(ids.translationDictionaryImportID.value, "./" + shared.translationDirectoryName)
    ensures ids.fallback.Some? ==> imports[|imports| - 1] == FallbackImport(ids.fallback.value, shared)
  {
    (if ids.translationDictionaryImportID.Some?
     then [ImportModule(ids.translationDictionaryImportID.value, "./" + shared.translationDirectoryName)]
     else []) +
    (if ids.translationIndexImportID.Some?
     then [ImportModule(ids.translationIndexImportID.value, "./" + shared.translationDirectoryName)]
     else []) +
    (if ids.fallback.Some?
     then [FallbackImport(ids.fallback.value, shared)]
     else [])
  }

  function FallbackImport(fallback: Fallback, shared: Shared): Statement {
    ImportModule(fallback.id, "./" + shared.translationDirectoryName + "/" + fallback.locale + ".json")
  }

  /** The arguments the sole zero-argument call receives. */
  function CallParams(bindingName: string, ids: ImportIds, file: SourceFile): I18nCallParams {
    I18nCallParams(
      GenerateId(file.filename, file.filenameHash36),
      ids.translationIndexImportID,
      bindingName,
      if FromGeneratedFiles(ids) then None else Some(file.translationFilePaths),
      ids.fallback,
      ids.translationDictionaryImportID)
  }

  /** When exactly one reference is rewritten, every eligible reference is that one. */
  lemma SoleReferenceToRewrite(nodes: map<NodeId, Node>, refs: seq<Reference>)
    requires Resolves(nodes, refs)
    requires |ReferencesToRewrite(nodes, refs)| == 1
    ensures var only := ReferencesToRewrite(nodes, refs)[0];
      only in refs && EligibleIn(nodes, only) &&
      forall r :: r in refs && EligibleIn(nodes, r) ==> r == only
  {
    var rw := ReferencesToRewrite(nodes, refs);
    assert rw[0] in rw;
    forall r | r in refs && EligibleIn(nodes, r) ensures r == rw[0] {
      assert r in rw;
    }
  }

  /** `addI18nArguments` for one binding, as a decision on the current nodes. */
  function Decide(nodes: map<NodeId, Node>, bindingName: string, binding: Binding, ids: ImportIds,
                  file: SourceFile, shared: Shared): (d: Decision)
    requires Resolves(nodes, binding.referencePaths)
    ensures var rw := ReferencesToRewrite(nodes, binding.referencePaths);
      (rw == [] ==> d == Unchanged) &&
      (d.Fail? <==> |rw| > 1) &&
      (d.Fail? ==> d.error == TooManyCalls(bindingName, |rw|)) &&
      (d.Rewrite? <==> |rw| == 1 && TranslationsAvailable(ids, file))
    ensures d.Rewrite? ==>
      d.target in nodes && IsZeroArgumentCall(nodes[d.target]) &&
      (forall r :: r in binding.referencePaths && EligibleIn(nodes, r) ==> r.parentPath == d.target) &&
      d.imports == InsertedImports(ids, shared) &&
      d.call == I18nCallExpression(CallParams(bindingName, ids, file))
  {
    var rw := ReferencesToRewrite(nodes, binding.referencePaths);
    if |rw| == 0 then Unchanged
    else if |rw| > 1 then Fail(TooManyCalls(bindingName, |rw|))
    else if !TranslationsAvailable(ids, file) then Unchanged
    else
      SoleReferenceToRewrite(nodes, binding.referencePaths);
      Rewrite(rw[0].parentPath, InsertedImports(ids, shared), I18nCallExpression(CallParams(bindingName, ids, file)))
  }

  /** The tree after a decision: imports prepended and the target replaced, or nothing. */
  function Apply(t: Tree, d: Decision): (r: Tree)
    requires d.Rewrite? ==> d.target in t.nodes
    ensures r.nodes.Keys == t.nodes.Keys
    ensures |r.body| >= |t.body| && r.body[|r.body| - |t.body|..] == t.body
    ensures forall k :: k in t.nodes && !(d.Rewrite? && k == d.target) ==> r.nodes[k] == t.nodes[k]
    ensures !d.Rewrite? ==> r == t
    ensures d.Rewrite? ==> r.body == d.imports + t.body && r.nodes == t.nodes[d.target := d.call]
  {
    if d.Rewrite? then Tree(d.imports + t.body, t.nodes[d.target := d.call]) else t
  }

  // ---------------------------------------------------------------------------
  // The ImportDeclaration visitor

  /** The specifier names `useI18n` or `withI18n` and its local name has a binding. */
  predicate Handles(spec: ImportSpecifier, scope: map<string, Binding>) {
    spec.ImportSpecifier? && spec.imported in I18N_CALL_NAMES && spec.local in scope
  }

  /** What the visitor decides for one specifier of a `@shopify/react-i18n` import. */
  function SpecifierDecision(nodes: map<NodeId, Node>, spec: ImportSpecifier, fallbackUid: string,
                             scope: map<string, Binding>, mode: Mode, file: SourceFile,
                             shared: Shared): (d: Decision)
    requires ScopeResolves(nodes, scope)
    ensures !Handles(spec, scope) ==> d == Unchanged
    ensures d.Rewrite? ==> d.target in nodes && IsZeroArgumentCall(nodes[d.target])
    ensures d.Fail? ==> d.error.bindingName == spec.local && d.error.count > 1
    ensures d.Rewrite? ==> d.imports == InsertedImports(DeriveImportIds(mode, shared, fallbackUid), shared)
    ensures Handles(spec, scope) ==>
      d == Decide(nodes, spec.local, scope[spec.local], DeriveImportIds(mode, shared, fallbackUid), file, shared)
  {
    if !spec.ImportSpecifier? || spec.imported !in I18N_CALL_NAMES then Unchanged
    else if spec.local !in scope then Unchanged
    else Decide(nodes, spec.local, scope[spec.local], DeriveImportIds(mode, shared, fallbackUid), file, shared)
  }

  /** `specifiers.forEach(...)`: specifiers in order, stopping at the first error. */
  function ForEachSpecifier(t: Tree, specs: seq<ImportSpecifier>, uids: seq<string>,
                           scope: map<string, Binding>, mode: Mode, file: SourceFile,
                           shared: Shared): (r: VisitResult)
    requires |uids| == |specs|
    requires ScopeResolves(t.nodes, scope)
    decreases |specs|
  {
    if specs == [] then VisitResult(t, None)
    else
      var d := SpecifierDecision(t.nodes, specs[0], uids[0], scope, mode, file, shared);
      if d.Fail? then VisitResult(t, Some(d.error))
      else
        var t' := Apply(t, d);
        assert ScopeResolves(t'.nodes, scope);
        ForEachSpecifier(t', specs[1..], uids[1..], scope, mode, file, shared)
  }

  /** The `ImportDeclaration` visitor: only declarations from `@shopify/react-i18n` are considered. */
  function ImportDeclarationOutcome(t: Tree, decl: ImportDeclaration, uids: seq<string>,
                                  scope: map<string, Binding>, mode: Mode, file: SourceFile,
                                  shared: Shared): (r: VisitResult)
    requires |uids| == |decl.specifiers|
    requires ScopeResolves(t.nodes, scope)
    ensures decl.source != PACKAGE_NAME ==> r == VisitResult(t, None)
  {
    if decl.source != PACKAGE_NAME then VisitResult(t, None)
    else ForEachSpecifier(t, decl.specifiers, uids, scope, mode, file, shared)
  }

  // ---------------------------------------------------------------------------
  // The error message

  function DigitChar(d: nat): (c: char)
    requires d < 10
  {
    "0123456789"[d]
  }

  predicate AllDigits(s: string) {
    forall k :: 0 <= k < |s| ==> '0' <= s[k] <= '9'
  }

  /** The decimal value of a string of digits. */
  function DecimalValue(s: string): (n: nat)
    requires AllDigits(s)
    decreases |s|
  {
    if s == [] then 0 else DecimalValue(s[..|s| - 1]) * 10 + (s[|s| - 1] - '0') as nat
  }

  /** A count as JavaScript renders it in a template literal. */
  /** No leading zero, as JavaScript renders a number. */
  predicate Canonical(s: string) {
    |s| > 1 ==> s[0] != '0'
  }

  function DecimalString(n: nat): (s: string)
    ensures s != [] && AllDigits(s) && Canonical(s)
    ensures n > 0 ==> s[0] != '0'
    ensures DecimalValue(s) == n
    decreases n
  {
    if n < 10 then [DigitChar(n)]
    else
      var s := DecimalString(n / 10) + [DigitChar(n % 10)];
      assert s[..|s| - 1] == DecimalString(n / 10);
      s
  }

  /** The text of the error thrown when a binding is called without arguments more than once. */
  function Message(e: PluginError): (m: string)
    ensures var lead := TOO_MANY_CALLS_LEAD + e.bindingName + " ";
      |lead| < |m| && m[..|lead|] == lead &&
      exists count :: AllDigits(count) && Canonical(count) && DecimalValue(count) == e.count &&
        m == lead + count + TOO_MANY_CALLS_TAIL
  {
    TOO_MANY_CALLS_LEAD + e.bindingName + " " + DecimalString(e.count) + TOO_MANY_CALLS_TAIL
  }
}
