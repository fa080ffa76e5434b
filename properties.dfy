/**
 * Properties of the rewrite decision that relate several of its parts: the
 * mode decision table, the existence gating, the import order, and what a
 * whole import declaration's visit can and cannot change.
 */
module I18nProperties {
  import opened Wrappers
  import opened Ast
  import opened I18nRewrite

  /** In index or dictionary mode `index.js` decides; in the default mode the JSON files do. */
  lemma GatingByMode(mode: Mode, shared: Shared, fallbackUid: string, file: SourceFile)
    ensures var ids := DeriveImportIds(mode, shared, fallbackUid);
      (mode != Default ==> (TranslationsAvailable(ids, file) <==> file.translationIndexExists)) &&
      (mode == Default ==> (TranslationsAvailable(ids, file) <==> |file.translationFilePaths| > 0))
  {
  }

  /**
   * The body's new head, mode by mode: dictionary before index before
   * fallback, which is the reverse of the order they are unshifted in.
   */
  lemma ImportOrderByMode(mode: Mode, shared: Shared, fallbackUid: string)
    ensures var imports := InsertedImports(DeriveImportIds(mode, shared, fallbackUid), shared);
      var directory := "./" + shared.translationDirectoryName;
      var fallback := FallbackImport(Fallback(shared.defaultFallbackLocale, fallbackUid), shared);
      match mode
      case Default => imports == [fallback]
      case FromGeneratedIndex => imports == [ImportModule(TRANSLATION_INDEX_IMPORT_ID, directory), fallback]
      case FromGeneratedDictionary => imports == [ImportModule(TRANSLATION_DICTIONARY_IMPORT_ID, directory)]
  {
  }

  /** What one binding's visit does to the tree, case by case. */
  lemma AddArgumentsEffect(t: Tree, bindingName: string, binding: Binding, ids: ImportIds,
                           file: SourceFile, shared: Shared)
    requires Resolves(t.nodes, binding.referencePaths)
    ensures var rw := ReferencesToRewrite(t.nodes, binding.referencePaths);
      var d := Decide(t.nodes, bindingName, binding, ids, file, shared);
      var r := Apply(t, d);
      (rw == [] ==> r == t && !d.Fail?) &&
      (|rw| > 1 ==> r == t && d == Fail(TooManyCalls(bindingName, |rw|))) &&
      (|rw| == 1 && !TranslationsAvailable(ids, file) ==> r == t && !d.Fail?) &&
      (|rw| == 1 && TranslationsAvailable(ids, file) ==>
        r.body == InsertedImports(ids, shared) + t.body &&
        r.nodes == t.nodes[rw[0].parentPath := I18nCallExpression(CallParams(bindingName, ids, file))])
  {
  }

  /** The generated call has arguments, so a rewritten call is never rewritten again. */
  lemma GeneratedCallIsNotEligible(params: I18nCallParams)
    ensures !IsZeroArgumentCall(I18nCallExpression(params))
  {
  }

  /** `after` is `before` with zero or more imports in front of it. */
  predicate PrependsImports(before: seq<Statement>, after: seq<Statement>) {
    |after| >= |before| && after[|after| - |before|..] == before &&
    forall k :: 0 <= k < |after| - |before| ==> after[k].ImportModule?
  }

  lemma PrependsImportsTransitive(a: seq<Statement>, b: seq<Statement>, c: seq<Statement>)
    requires PrependsImports(a, b) && PrependsImports(b, c)
    ensures PrependsImports(a, c)
  {
    assert c[|c| - |a|..] == c[|c| - |b|..][|b| - |a|..];
    forall k | 0 <= k < |c| - |a| ensures c[k].ImportModule? {
      if k >= |c| - |b| {
        assert c[k] == b[k - (|c| - |b|)];
      }
    }
  }

  /** One binding's visit prepends imports and nothing else to the body. */
  lemma StepPrependsImports(t: Tree, d: Decision)
    requires d.Rewrite? ==> d.target in t.nodes
    requires d.Rewrite? ==> forall k :: 0 <= k < |d.imports| ==> d.imports[k].ImportModule?
    ensures PrependsImports(t.body, Apply(t, d).body)
  {
    if d.Rewrite? {
      assert Apply(t, d).body == d.imports + t.body;
    }
  }

  /**
   * Visiting the specifiers only prepends imports: the original body is
   * still there, in its original order, after them.
   */
  lemma {:induction false} ForEachKeepsBody(t: Tree, specs: seq<ImportSpecifier>, uids: seq<string>,
                                            scope: map<string, Binding>, mode: Mode, file: SourceFile,
                                            shared: Shared)
    requires |uids| == |specs|
    requires ScopeResolves(t.nodes, scope)
    ensures PrependsImports(t.body, ForEachSpecifier(t, specs, uids, scope, mode, file, shared).tree.body)
    decreases |specs|
  {
    if specs != [] {
      var d := SpecifierDecision(t.nodes, specs[0], uids[0], scope, mode, file, shared);
      var r := ForEachSpecifier(t, specs, uids, scope, mode, file, shared).tree;
      if !d.Fail? {
        var t' := Apply(t, d);
        assert r == ForEachSpecifier(t', specs[1..], uids[1..], scope, mode, file, shared).tree;
        StepPrependsImports(t, d);
        ForEachKeepsBody(t', specs[1..], uids[1..], scope, mode, file, shared);
        PrependsImportsTransitive(t.body, t'.body, r.body);
      }
    }
  }

  /** One binding's visit only replaces a zero-argument call. */
  lemma StepKeepsIneligibleNodes(t: Tree, d: Decision)
    requires d.Rewrite? ==> d.target in t.nodes && IsZeroArgumentCall(t.nodes[d.target])
    ensures Apply(t, d).nodes.Keys == t.nodes.Keys
    ensures forall k :: k in t.nodes && !IsZeroArgumentCall(t.nodes[k]) ==> Apply(t, d).nodes[k] == t.nodes[k]
  {
  }

  /**
   * Calls that already have arguments and non-call parents are never touched
   * by a visit; nodes are never added or removed.
   */
  lemma {:induction false} ForEachKeepsIneligibleNodes(t: Tree, specs: seq<ImportSpecifier>, uids: seq<string>,
                                                       scope: map<string, Binding>, mode: Mode, file: SourceFile,
                                                       shared: Shared)
    requires |uids| == |specs|
    requires ScopeResolves(t.nodes, scope)
    ensures var r := ForEachSpecifier(t, specs, uids, scope, mode, file, shared).tree;
      r.nodes.Keys == t.nodes.Keys &&
      forall k :: k in t.nodes && !IsZeroArgumentCall(t.nodes[k]) ==> r.nodes[k] == t.nodes[k]
    decreases |specs|
  {
    if specs != [] {
      var d := SpecifierDecision(t.nodes, specs[0], uids[0], scope, mode, file, shared);
      if !d.Fail? {
        var t' := Apply(t, d);
        assert ForEachSpecifier(t, specs, uids, scope, mode, file, shared) ==
          ForEachSpecifier(t', specs[1..], uids[1..], scope, mode, file, shared);
        StepKeepsIneligibleNodes(t, d);
        ForEachKeepsIneligibleNodes(t', specs[1..], uids[1..], scope, mode, file, shared);
      }
    }
  }

  /**
   * A visit fails only on a handled specifier whose binding has several
   * zero-argument calls, and the error names that binding.
   */
  lemma {:induction false} ForEachErrorNamesBinding(t: Tree, specs: seq<ImportSpecifier>, uids: seq<string>,
                                                    scope: map<string, Binding>, mode: Mode, file: SourceFile,
                                                    shared: Shared)
    requires |uids| == |specs|
    requires ScopeResolves(t.nodes, scope)
    ensures var r := ForEachSpecifier(t, specs, uids, scope, mode, file, shared);
      r.error.Some? ==>
        r.error.value.count > 1 &&
        exists i :: 0 <= i < |specs| && Handles(specs[i], scope) && specs[i].local == r.error.value.bindingName
    decreases |specs|
  {
    if specs != [] {
      var d := SpecifierDecision(t.nodes, specs[0], uids[0], scope, mode, file, shared);
      var r := ForEachSpecifier(t, specs, uids, scope, mode, file, shared);
      if d.Fail? {
        assert r.error == Some(d.error);
        assert Handles(specs[0], scope) && specs[0].local == d.error.bindingName && d.error.count > 1;
      } else {
        var t' := Apply(t, d);
        assert r == ForEachSpecifier(t', specs[1..], uids[1..], scope, mode, file, shared);
        ForEachErrorNamesBinding(t', specs[1..], uids[1..], scope, mode, file, shared);
        if r.error.Some? {
          var i :| 0 <= i < |specs[1..]| && Handles(specs[1..][i], scope) &&
            specs[1..][i].local == r.error.value.bindingName;
          assert specs[i + 1] == specs[1..][i];
        }
      }
    }
  }


  /** Default and namespace imports, other names and unbound names leave the tree as it is. */
  lemma {:induction false} ForEachIgnoresUnhandled(t: Tree, specs: seq<ImportSpecifier>, uids: seq<string>,
                                                   scope: map<string, Binding>, mode: Mode, file: SourceFile,
                                                   shared: Shared)
    requires |uids| == |specs|
    requires ScopeResolves(t.nodes, scope)
    requires forall i :: 0 <= i < |specs| ==> !Handles(specs[i], scope)
    ensures ForEachSpecifier(t, specs, uids, scope, mode, file, shared) == VisitResult(t, None)
    decreases |specs|
  {
    if specs != [] {
      assert !Handles(specs[0], scope);
      assert forall i :: 0 <= i < |specs[1..]| ==> specs[1..][i] == specs[i + 1];
      ForEachIgnoresUnhandled(t, specs[1..], uids[1..], scope, mode, file, shared);
    }
  }

  /** Unhandled specifiers before position `i` are skipped without effect. */
  lemma {:induction false} ForEachSkipsUnhandledPrefix(t: Tree, specs: seq<ImportSpecifier>, uids: seq<string>,
                                                       scope: map<string, Binding>, mode: Mode, file: SourceFile,
                                                       shared: Shared, i: nat)
    requires |uids| == |specs|
    requires ScopeResolves(t.nodes, scope)
    requires i <= |specs|
    requires forall j :: 0 <= j < i ==> !Handles(specs[j], scope)
    ensures ForEachSpecifier(t, specs, uids, scope, mode, file, shared) ==
      ForEachSpecifier(t, specs[i..], uids[i..], scope, mode, file, shared)
    decreases i
  {
    if i > 0 {
      ForEachUnhandledHead(t, specs, uids, scope, mode, file, shared);
      assert forall j :: 0 <= j < i - 1 ==> specs[1..][j] == specs[j + 1];
      ForEachSkipsUnhandledPrefix(t, specs[1..], uids[1..], scope, mode, file, shared, i - 1);
      assert specs[1..][i - 1..] == specs[i..] && uids[1..][i - 1..] == uids[i..];
    }
  }

  /**
   * When the first handled specifier sits at position `i` and its binding's
   * visit does not fail, the visit continues after `i` from the tree that
   * visit produced.
   */
  lemma ForEachReachesHandled(t: Tree, specs: seq<ImportSpecifier>, uids: seq<string>,
                              scope: map<string, Binding>, mode: Mode, file: SourceFile,
                              shared: Shared, i: nat)
    requires |uids| == |specs|
    requires ScopeResolves(t.nodes, scope)
    requires i < |specs| && Handles(specs[i], scope)
    requires forall j :: 0 <= j < i ==> !Handles(specs[j], scope)
    requires !Decide(t.nodes, specs[i].local, scope[specs[i].local],
                     DeriveImportIds(mode, shared, uids[i]), file, shared).Fail?
    ensures var name := specs[i].local;
      var d := Decide(t.nodes, name, scope[name], DeriveImportIds(mode, shared, uids[i]), file, shared);
      ForEachSpecifier(t, specs, uids, scope, mode, file, shared) ==
        ForEachSpecifier(Apply(t, d), specs[i + 1..], uids[i + 1..], scope, mode, file, shared)
  {
    ForEachSkipsUnhandledPrefix(t, specs, uids, scope, mode, file, shared, i);
    assert specs[i..][0] == specs[i] && uids[i..][0] == uids[i];
    assert specs[i..][1..] == specs[i + 1..] && uids[i..][1..] == uids[i + 1..];
    ForEachHandledHead(t, specs[i..], uids[i..], scope, mode, file, shared);
  }

  /** Unhandled specifiers after position `i` are skipped without effect. */
  lemma ForEachIgnoresUnhandledSuffix(t: Tree, specs: seq<ImportSpecifier>, uids: seq<string>,
                                      scope: map<string, Binding>, mode: Mode, file: SourceFile,
                                      shared: Shared, i: nat)
    requires |uids| == |specs|
    requires ScopeResolves(t.nodes, scope)
    requires i < |specs|
    requires forall j :: i < j < |specs| ==> !Handles(specs[j], scope)
    ensures ForEachSpecifier(t, specs[i + 1..], uids[i + 1..], scope, mode, file, shared) == VisitResult(t, None)
  {
    var rest := specs[i + 1..];
    forall j | 0 <= j < |rest| ensures !Handles(rest[j], scope) {
      assert rest[j] == specs[i + 1 + j];
    }
    ForEachIgnoresUnhandled(t, rest, uids[i + 1..], scope, mode, file, shared);
  }

  /**
   * A `@shopify/react-i18n` declaration whose only handled specifier has one
   * zero-argument call, with the mode's translation files present, is
   * rewritten: the imports go in front of the body and that call gets the
   * generated arguments.
   */
  lemma DeclarationRewritesSoleCall(t: Tree, decl: ImportDeclaration, uids: seq<string>,
                                    scope: map<string, Binding>, mode: Mode, file: SourceFile,
                                    shared: Shared, i: nat)
    requires |uids| == |decl.specifiers|
    requires ScopeResolves(t.nodes, scope)
    requires decl.source == PACKAGE_NAME
    requires i < |decl.specifiers| && Handles(decl.specifiers[i], scope)
    requires forall j :: 0 <= j < |decl.specifiers| && j != i ==> !Handles(decl.specifiers[j], scope)
    requires |ReferencesToRewrite(t.nodes, scope[decl.specifiers[i].local].referencePaths)| == 1
    requires TranslationsAvailable(DeriveImportIds(mode, shared, uids[i]), file)
    ensures var name := decl.specifiers[i].local;
      var ids := DeriveImportIds(mode, shared, uids[i]);
      var target := ReferencesToRewrite(t.nodes, scope[name].referencePaths)[0].parentPath;
      ImportDeclarationOutcome(t, decl, uids, scope, mode, file, shared) ==
        VisitResult(Tree(InsertedImports(ids, shared) + t.body,
                         t.nodes[target := I18nCallExpression(CallParams(name, ids, file))]), None)
  {
    var specs := decl.specifiers;
    var name := specs[i].local;
    var ids := DeriveImportIds(mode, shared, uids[i]);
    var target := ReferencesToRewrite(t.nodes, scope[name].referencePaths)[0].parentPath;
    var t' := Tree(InsertedImports(ids, shared) + t.body,
                   t.nodes[target := I18nCallExpression(CallParams(name, ids, file))]);
    assert Apply(t, Decide(t.nodes, name, scope[name], ids, file, shared)) == t' by {
      AddArgumentsEffect(t, name, scope[name], ids, file, shared);
    }
    ForEachReachesHandled(t, specs, uids, scope, mode, file, shared, i);
    ForEachIgnoresUnhandledSuffix(t', specs, uids, scope, mode, file, shared, i);
  }

  /** An unhandled first specifier is skipped without effect. */
  lemma ForEachUnhandledHead(t: Tree, specs: seq<ImportSpecifier>, uids: seq<string>,
                             scope: map<string, Binding>, mode: Mode, file: SourceFile, shared: Shared)
    requires |uids| == |specs|
    requires ScopeResolves(t.nodes, scope)
    requires specs != [] && !Handles(specs[0], scope)
    ensures ForEachSpecifier(t, specs, uids, scope, mode, file, shared) ==
      ForEachSpecifier(t, specs[1..], uids[1..], scope, mode, file, shared)
  {
  }

  /** A handled first specifier that does not fail is applied before the rest are visited. */
  lemma ForEachHandledHead(t: Tree, specs: seq<ImportSpecifier>, uids: seq<string>,
                           scope: map<string, Binding>, mode: Mode, file: SourceFile, shared: Shared)
    requires |uids| == |specs|
    requires ScopeResolves(t.nodes, scope)
    requires specs != [] && Handles(specs[0], scope)
    ensures var name := specs[0].local;
      var d := Decide(t.nodes, name, scope[name], DeriveImportIds(mode, shared, uids[0]), file, shared);
      ForEachSpecifier(t, specs, uids, scope, mode, file, shared) ==
        if d.Fail? then VisitResult(t, Some(d.error))
        else ForEachSpecifier(Apply(t, d), specs[1..], uids[1..], scope, mode, file, shared)
  {
  }

  /**
   * The first handled specifier of a `@shopify/react-i18n` declaration with
   * more than one zero-argument call makes the visit fail with that binding's
   * name and count, before anything is inserted or replaced.
   */
  lemma DeclarationFailsOnRepeatedUse(t: Tree, decl: ImportDeclaration, uids: seq<string>,
                                      scope: map<string, Binding>, mode: Mode, file: SourceFile,
                                      shared: Shared, i: nat)
    requires |uids| == |decl.specifiers|
    requires ScopeResolves(t.nodes, scope)
    requires decl.source == PACKAGE_NAME
    requires i < |decl.specifiers| && Handles(decl.specifiers[i], scope)
    requires forall j :: 0 <= j < i ==> !Handles(decl.specifiers[j], scope)
    requires |ReferencesToRewrite(t.nodes, scope[decl.specifiers[i].local].referencePaths)| > 1
    ensures var name := decl.specifiers[i].local;
      var count := |ReferencesToRewrite(t.nodes, scope[name].referencePaths)|;
      ImportDeclarationOutcome(t, decl, uids, scope, mode, file, shared) ==
        VisitResult(t, Some(TooManyCalls(name, count)))
  {
    var specs := decl.specifiers;
    ForEachSkipsUnhandledPrefix(t, specs, uids, scope, mode, file, shared, i);
    assert specs[i..][0] == specs[i];
  }
}
