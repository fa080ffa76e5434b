/**
 * The plugin's in-place updates: the `Program` node's body that
 * `insertImport` prepends to, the node that `replaceWith` overwrites, and the
 * visitor state that remembers the program path.
 */
module I18nPlugin {
  import opened Wrappers
  import opened Ast
  import opened I18nRewrite

  /** The node path of the compiled file's `Program` node. */
  class ProgramPath {
    var body: seq<Statement>
    var nodes: map<NodeId, Node>

    constructor (body: seq<Statement>, nodes: map<NodeId, Node>)
      ensures this.body == body && this.nodes == nodes
    {
      this.body := body;
      this.nodes := nodes;
    }

    function Snapshot(): Tree
      reads this
    {
      Tree(body, nodes)
    }

    /** `insertImport`: one `unshift` per import the mode asks for, fallback first. */
    method InsertImport(ids: ImportIds, shared: Shared)
      modifies this
      ensures body == InsertedImports(ids, shared) + old(body)
      ensures nodes == old(nodes)
    {
      if ids.fallback.Some? {
        body := [FallbackImport(ids.fallback.value, shared)] + body;
      }
      if ids.translationIndexImportID.Some? {
        body := [ImportModule(ids.translationIndexImportID.value, "./" + shared.translationDirectoryName)] + body;
      }
      if ids.translationDictionaryImportID.Some? {
        body := [ImportModule(ids.translationDictionaryImportID.value, "./" + shared.translationDirectoryName)] + body;
      }
    }

    /** `parentPath.replaceWith(node)`: the node at `target` becomes `node`. */
    method ReplaceWith(target: NodeId, node: Node)
      modifies this
      ensures nodes == old(nodes)[target := node]
      ensures body == old(body)
    {
      nodes := nodes[target := node];
    }

    /**
     * `addI18nArguments`: rewrite the binding's one zero-argument call, or
     * leave the tree as it is, or report that there are several.
     */
    method AddI18nArguments(bindingName: string, binding: Binding, ids: ImportIds,
                            file: SourceFile, shared: Shared)
      returns (error: Option<PluginError>)
      requires Resolves(nodes, binding.referencePaths)
      modifies this
      ensures var d := Decide(old(nodes), bindingName, binding, ids, file, shared);
        Snapshot() == Apply(old(Snapshot()), d) &&
        error == (if d.Fail? then Some(d.error) else None)
    {
      var referencePathsToRewrite := ReferencesToRewrite(nodes, binding.referencePaths);
      if |referencePathsToRewrite| == 0 {
        return None;
      }
      if |referencePathsToRewrite| > 1 {
        return Some(TooManyCalls(bindingName, |referencePathsToRewrite|));
      }
      var translationFilePaths: Option<seq<string>> := None;
      if ids.translationDictionaryImportID.Some? || ids.translationIndexImportID.Some? {
        if !file.translationIndexExists {
          return None;
        }
      } else {
        translationFilePaths := Some(file.translationFilePaths);
        if |file.translationFilePaths| == 0 {
          return None;
        }
      }
      InsertImport(ids, shared);
      var params := I18nCallParams(
        GenerateId(file.filename, file.filenameHash36),
        ids.translationIndexImportID,
        bindingName,
        translationFilePaths,
        ids.fallback,
        ids.translationDictionaryImportID);
      ReplaceWith(referencePathsToRewrite[0].parentPath, I18nCallExpression(params));
      error := None;
    }
  }

  /** The visitor state: the program path seen on entry and the plugin options. */
  class PluginState {
    var program: ProgramPath?
    const opts: Mode

    constructor (mode: Mode)
      ensures program == null && opts == mode
    {
      program := null;
      opts := mode;
    }

    /** The `Program` visitor remembers the program path. */
    method VisitProgram(nodePath: ProgramPath)
      modifies this
      ensures program == nodePath
    {
      program := nodePath;
    }

    /**
     * The `ImportDeclaration` visitor: each named `useI18n`/`withI18n`
     * specifier of a `@shopify/react-i18n` import, in order, until one fails.
     * `uids` are the fresh fallback identifiers the scope hands out, one per
     * specifier.
     */
    method VisitImportDeclaration(decl: ImportDeclaration, scope: map<string, Binding>,
                                  file: SourceFile, shared: Shared, uids: seq<string>)
      returns (error: Option<PluginError>)
      requires program != null
      requires |uids| == |decl.specifiers|
      requires ScopeResolves(program.nodes, scope)
      modifies program
      ensures VisitResult(program.Snapshot(), error) ==
        ImportDeclarationOutcome(old(program.Snapshot()), decl, uids, scope, opts, file, shared)
    {
      if decl.source != PACKAGE_NAME {
        return None;
      }
      var specifiers := decl.specifiers;
      ghost var start := program.Snapshot();
      var i := 0;
      while i < |specifiers|
        invariant 0 <= i <= |specifiers|
        invariant ScopeResolves(program.nodes, scope)
        invariant ForEachSpecifier(start, specifiers, uids, scope, opts, file, shared) ==
          ForEachSpecifier(program.Snapshot(), specifiers[i..], uids[i..], scope, opts, file, shared)
      {
        assert specifiers[i..][1..] == specifiers[i + 1..] && uids[i..][1..] == uids[i + 1..];
        var specifier := specifiers[i];
        if specifier.ImportSpecifier? && specifier.imported in I18N_CALL_NAMES {
          var bindingName := specifier.local;
          if bindingName in scope {
            var binding := scope[bindingName];
            var ids := DeriveImportIds(opts, shared, uids[i]);
            error := program.AddI18nArguments(bindingName, binding, ids, file, shared);
            if error.Some? {
              return;
            }
          }
        }
        i := i + 1;
      }
      error := None;
    }
  }
}
