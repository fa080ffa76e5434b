/**
 * The part of a Babel syntax tree that the i18n plugin reads and writes.
 *
 * A compiled file is a `Tree`: the top-level statements of its `Program`
 * node (where the plugin prepends imports) and the expression nodes that are
 * parents of identifier references (where it replaces a call). Node paths
 * are positions in that table.
 */
module Ast {
  import opened Wrappers

  type NodeId = nat

  /**
   * A call argument: source text the plugin never inspects, or the options
   * object that the `i18nCallExpression` template passes to the hook.
   */
  datatype Argument =
    | Argument(source: string)
    | I18nOptions(params: I18nCallParams)

  /** The default-locale translation that is imported eagerly. */
  datatype Fallback = Fallback(locale: string, id: string)

  /** The values the `i18nCallExpression` template is instantiated with. */
  datatype I18nCallParams = I18nCallParams(
    id: string,
    translationIndexImportID: Option<string>,
    bindingName: string,
    translationFilePaths: Option<seq<string>>,
    fallback: Option<Fallback>,
    translationDictionaryImportID: Option<string>)

  /** An expression node that can be the parent of a reference. */
  datatype Node =
    | CallExpression(arguments: Option<seq<Argument>>)
    | OtherExpression(nodeType: string)

  /** The node the `i18nCallExpression` template builds: a call with the generated options. */
  function I18nCallExpression(params: I18nCallParams): Node {
    CallExpression(Some([I18nOptions(params)]))
  }

  /** A top-level statement of the program body. */
  datatype Statement =
    | ImportModule(id: string, from: string)
    | OtherStatement(source: string)

  /** A reference to a binding, known by the node path of its parent. */
  datatype Reference = Reference(parentPath: NodeId)

  /** A scope binding with the paths of all its references. */
  datatype Binding = Binding(referencePaths: seq<Reference>)

  datatype ImportSpecifier =
    | ImportSpecifier(imported: string, local: string)
    | ImportDefaultSpecifier(local: string)
    | ImportNamespaceSpecifier(local: string)

  datatype ImportDeclaration = ImportDeclaration(source: string, specifiers: seq<ImportSpecifier>)

  datatype Tree = Tree(body: seq<Statement>, nodes: map<NodeId, Node>)

  /** Every reference's parent is a node of the tree. */
  predicate Resolves(nodes: map<NodeId, Node>, refs: seq<Reference>) {
    forall r :: r in refs ==> r.parentPath in nodes
  }

  /** Every binding of the scope has all its references in the tree. */
  predicate ScopeResolves(nodes: map<NodeId, Node>, scope: map<string, Binding>) {
    forall name :: name in scope ==> Resolves(nodes, scope[name].referencePaths)
  }
}
