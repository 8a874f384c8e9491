/**
 * Authority analysis of one declared SQL statement
 * (crates/bicdb-app-runtime/src/bounded_sql.rs).
 *
 * The analyser walks the syntax tree once, keeping a stack of scopes of common
 * table expressions. While it walks a definition it lowers the visible count of
 * the enclosing scope in place and puts it back afterwards. The reference is
 * `QueryMeaning`: a recursive semantics with explicit lexical environments.
 */
module Authority {
  import opened Prelude
  import opened Text

  // ---------------------------------------------------------------- names

  datatype Identifier = Identifier(value: string, quoted: bool)

  datatype NamePart = Named(ident: Identifier) | Computed(text: string)

  type ObjectName = seq<NamePart>

  function CteName(name: Identifier): string {
    if name.quoted then name.value else Lower(name.value)
  }

  function Escape(s: string): string {
    if s == "" then "" else (if s[0] == '"' then "\"\"" else [s[0]]) + Escape(s[1..])
  }

  function Display(name: ObjectName): string {
    if name == [] then ""
    else
      var part := match name[0]
        case Named(ident) => if ident.quoted then "\"" + Escape(ident.value) + "\"" else ident.value
        case Computed(text) => text;
      if |name| == 1 then part else part + "." + Display(name[1..])
  }

  /** Lower-cases and unquotes each dot-separated piece of `text`; `piece` is the piece being read. */
  function NormalizeText(text: string, piece: string): string
    decreases |text|
  {
    if text == "" then Lower(Trim(piece, IsQuote))
    else if text[0] == '.' then Lower(Trim(piece, IsQuote)) + "." + NormalizeText(text[1..], "")
    else NormalizeText(text[1..], piece + [text[0]])
  }

  function NormalizeName(name: ObjectName): string {
    NormalizeText(Display(name), "")
  }

  // ---------------------------------------------------------------- syntax

  datatype Action = Select | Insert | Upsert | Update | Delete | Execute

  datatype StatementKind =
    | QueryStatement
    | InsertStatement(into: Option<ObjectName>, onConflict: bool)
    | UpdateStatement(table: Option<ObjectName>)
    | DeleteStatement(from: seq<Option<ObjectName>>)
    | CallStatement(routine: ObjectName)
    | OtherStatement

  /** One callback of the tree walk, or a nested statement or query. */
  datatype Node =
    | Relation(name: ObjectName)
    | TableFactor(name: ObjectName, arguments: bool)
    | TableFunction(name: ObjectName)
    | FunctionCall(name: ObjectName)
    | Placeholder(text: string)
    | Nested(statement: Statement)
    | Subquery(query: Query)

  datatype Statement = Statement(kind: StatementKind, parts: seq<Node>)

  datatype Cte = Cte(alias: Identifier, query: Query)

  /** `address` stands for the location of the query node in memory. */
  datatype Query = Query(address: nat, recursive: bool, ctes: seq<Cte>, body: seq<Node>)

  ghost function NodeAddresses(node: Node): set<nat>
    decreases node
  {
    match node
    case Subquery(query) => {query.address}
    case Nested(statement) => PartAddresses(statement.parts)
    case _ => {}
  }

  /** Addresses of the queries that the walk of `nodes` enters directly. */
  ghost function PartAddresses(nodes: seq<Node>): set<nat>
    decreases nodes
  {
    if nodes == [] then {}
    else PartAddresses(nodes[..|nodes| - 1]) + NodeAddresses(nodes[|nodes| - 1])
  }

  /** Nodes that live at the same time have different addresses: as far as the walk compares them. */
  ghost predicate WellAddressed(query: Query)
    decreases query
  {
    && (forall i, j :: 0 <= i < j < |query.ctes| ==>
          query.ctes[i].query.address != query.ctes[j].query.address)
    && (forall i :: 0 <= i < |query.ctes| ==>
          && query.ctes[i].query.address !in PartAddresses(query.body)
          && WellAddressed(query.ctes[i].query))
    && (forall i :: 0 <= i < |query.body| ==> WellAddressedNode(query.body[i]))
  }

  ghost predicate WellAddressedNode(node: Node)
    decreases node
  {
    match node
    case Subquery(query) => WellAddressed(query)
    case Nested(statement) => WellAddressedStatement(statement)
    case _ => true
  }

  ghost predicate WellAddressedStatement(statement: Statement)
    decreases statement
  {
    forall i :: 0 <= i < |statement.parts| ==> WellAddressedNode(statement.parts[i])
  }

  // ---------------------------------------------------------------- reference semantics

  function DigitsValue(digits: string): Option<nat> {
    if digits == [] then Some(0)
    else
      var before, last := DigitsValue(digits[..|digits| - 1]), digits[|digits| - 1];
      if before.None? || !('0' <= last <= '9') then None
      else Some(10 * before.value + (last as int - '0' as int))
  }

  /** The number of a `$n` placeholder: positive, and within 64 bits. */
  function ParameterNumber(text: string): Option<nat> {
    if text == [] || text[0] != '$' then None
    else
      var digits := if |text| > 1 && text[1] == '+' then text[2..] else text[1..];
      var number := DigitsValue(digits);
      if digits == [] || number.None? || !(0 < number.value <= MAX_PARAMETER) then None else number
  }

  /** What a statement means for authority: base relations read, tables written, routines run. */
  datatype Meaning = Meaning(bases: set<string>, targets: set<string>, routines: set<string>,
                             tables: set<string>, actions: set<Action>,
                             parameters: set<nat>, malformed: set<string>)

  const MAX_PARAMETER := 0xFFFF_FFFF_FFFF_FFFF

  const NOTHING := Meaning({}, {}, {}, {}, {}, {}, {})

  function Both(a: Meaning, b: Meaning): Meaning {
    Meaning(a.bases + b.bases, a.targets + b.targets, a.routines + b.routines,
            a.tables + b.tables, a.actions + b.actions,
            a.parameters + b.parameters, a.malformed + b.malformed)
  }

  /**
   * Which siblings a definition sees among the first `limit` of its WITH clause.
   * `Lexical` is the SQL rule. `LastDefinition` additionally hides a name that is
   * defined again at or after `limit`, which is what the alias table expresses.
   */
  datatype Scoping = Lexical | LastDefinition

  function Names(ctes: seq<Cte>): set<string> {
    if ctes == [] then {} else Names(ctes[..|ctes| - 1]) + {CteName(ctes[|ctes| - 1].alias)}
  }

  function Siblings(ctes: seq<Cte>, limit: nat, scoping: Scoping): set<string>
    requires limit <= |ctes|
  {
    match scoping
    case Lexical => Names(ctes[..limit])
    case LastDefinition => Names(ctes[..limit]) - Names(ctes[limit..])
  }

  /** The names of its own clause that definition `index` sees: all of them when it is recursive. */
  function Seen(query: Query, index: nat, scoping: Scoping): set<string>
    requires index < |query.ctes|
  {
    if query.recursive then Names(query.ctes) else Siblings(query.ctes, index, scoping)
  }

  predicate DenotesCte(name: ObjectName, visible: set<string>) {
    |name| == 1 && name[0].Named? && CteName(name[0].ident) in visible
  }

  function TargetNames(tables: seq<Option<ObjectName>>): set<string> {
    if tables == [] then {}
    else
      var last := tables[|tables| - 1];
      TargetNames(tables[..|tables| - 1]) + if last.Some? then {NormalizeName(last.value)} else {}
  }

  function KindMeaning(kind: StatementKind): Meaning {
    match kind
    case QueryStatement => NOTHING.(actions := {Select})
    case InsertStatement(into, onConflict) =>
      NOTHING.(targets := TargetNames([into]), actions := {if onConflict then Upsert else Insert})
    case UpdateStatement(table) => NOTHING.(targets := TargetNames([table]), actions := {Update})
    case DeleteStatement(from) => NOTHING.(targets := TargetNames(from), actions := {Delete})
    case CallStatement(routine) => NOTHING.(routines := {NormalizeName(routine)}, actions := {Execute})
    case OtherStatement => NOTHING
  }

  function NodeMeaning(node: Node, visible: set<string>, scoping: Scoping): Meaning
    decreases node
  {
    match node
    case Relation(name) =>
      if DenotesCte(name, visible) then NOTHING else NOTHING.(bases := {NormalizeName(name)})
    case TableFactor(name, arguments) =>
      if arguments then NOTHING.(routines := {NormalizeName(name)}, actions := {Execute})
      else NOTHING.(tables := {NormalizeName(name)})
    case TableFunction(name) => NOTHING.(routines := {NormalizeName(name)}, actions := {Execute})
    case FunctionCall(name) => NOTHING.(routines := {NormalizeName(name)}, actions := {Execute})
    case Placeholder(text) =>
      var number := ParameterNumber(text);
      if number.Some? then NOTHING.(parameters := {number.value}) else NOTHING.(malformed := {text})
    case Nested(statement) => StatementMeaning(statement, visible, scoping)
    case Subquery(query) => QueryMeaning(query, visible, scoping)
  }

  function PartsMeaning(nodes: seq<Node>, visible: set<string>, scoping: Scoping): Meaning
    decreases nodes
  {
    if nodes == [] then NOTHING
    else Both(PartsMeaning(nodes[..|nodes| - 1], visible, scoping),
              NodeMeaning(nodes[|nodes| - 1], visible, scoping))
  }

  function StatementMeaning(statement: Statement, visible: set<string>, scoping: Scoping): Meaning
    decreases statement
  {
    Both(KindMeaning(statement.kind), PartsMeaning(statement.parts, visible, scoping))
  }

  /** The first `count` definitions of `query`, each in its own environment. */
  function DefinitionsMeaning(query: Query, count: nat, visible: set<string>, scoping: Scoping): Meaning
    requires count <= |query.ctes|
    decreases query, 0, count
  {
    if count == 0 then NOTHING
    else
      Both(DefinitionsMeaning(query, count - 1, visible, scoping),
           QueryMeaning(query.ctes[count - 1].query, visible + Seen(query, count - 1, scoping), scoping))
  }

  function QueryMeaning(query: Query, visible: set<string>, scoping: Scoping): Meaning
    decreases query, 1
  {
    Both(DefinitionsMeaning(query, |query.ctes|, visible, scoping),
         PartsMeaning(query.body, visible + Names(query.ctes), scoping))
  }

  // ---------------------------------------------------------------- the scope stack

  datatype CteScope = CteScope(aliases: map<string, nat>, visibleCount: nat,
                               definitionInputs: map<nat, nat>, parentVisibleCount: Option<nat>)

  function VisibleIn(scope: CteScope): set<string> {
    set name | name in scope.aliases && scope.aliases[name] < scope.visibleCount
  }

  /** The abstraction function: names with an index below the visible count of some scope. */
  function VisibleNames(scopes: seq<CteScope>): set<string> {
    if scopes == [] then {}
    else VisibleNames(scopes[..|scopes| - 1]) + VisibleIn(scopes[|scopes| - 1])
  }

  function Aliases(ctes: seq<Cte>): map<string, nat> {
    if ctes == [] then map[]
    else
      var last := |ctes| - 1;
      Aliases(ctes[..last])[CteName(ctes[last].alias) := last]
  }

  /** How many names of its own clause the walk leaves visible to definition `index`. */
  function DefinitionLimit(query: Query, index: nat): (limit: nat)
    requires index < |query.ctes|
    ensures limit <= |query.ctes|
  {
    if query.recursive then |query.ctes| else index
  }

  function Inputs(query: Query, count: nat): map<nat, nat>
    requires count <= |query.ctes|
  {
    if count == 0 then map[]
    else Inputs(query, count - 1)[query.ctes[count - 1].query.address := DefinitionLimit(query, count - 1)]
  }

  predicate IsDefinition(scopes: seq<CteScope>, address: nat) {
    scopes != [] && address in scopes[|scopes| - 1].definitionInputs
  }

  /** The stack as a definition at `address` sees it. */
  function Narrowed(scopes: seq<CteScope>, address: nat): seq<CteScope> {
    if IsDefinition(scopes, address) then
      var last := scopes[|scopes| - 1];
      scopes[|scopes| - 1 := last.(visibleCount := last.definitionInputs[address])]
    else scopes
  }

  function NewScope(query: Query, parentVisibleCount: Option<nat>): CteScope {
    CteScope(Aliases(query.ctes), |query.ctes|, Inputs(query, |query.ctes|), parentVisibleCount)
  }

  function Entered(scopes: seq<CteScope>, query: Query): seq<CteScope> {
    var parent := if IsDefinition(scopes, query.address)
                  then Some(scopes[|scopes| - 1].visibleCount) else None;
    Narrowed(scopes, query.address) + [NewScope(query, parent)]
  }

  function Left(scopes: seq<CteScope>): seq<CteScope>
    requires scopes != []
  {
    var popped := scopes[..|scopes| - 1];
    match scopes[|scopes| - 1].parentVisibleCount
    case Some(previous) =>
      if popped == [] then popped
      else popped[|popped| - 1 := popped[|popped| - 1].(visibleCount := previous)]
    case None => popped
  }

  lemma LeavingUndoesEntering(scopes: seq<CteScope>, query: Query)
    ensures Left(Entered(scopes, query)) == scopes
  {
    var inside := Entered(scopes, query);
    assert inside[..|inside| - 1] == Narrowed(scopes, query.address);
  }

  lemma {:induction false} AliasIndices(ctes: seq<Cte>)
    ensures Aliases(ctes).Keys == Names(ctes)
    ensures forall name :: name in Aliases(ctes) ==> Aliases(ctes)[name] < |ctes|
  {
    if ctes != [] {
      AliasIndices(ctes[..|ctes| - 1]);
    }
  }

  function AliasesBelow(ctes: seq<Cte>, limit: nat): set<string> {
    set name | name in Aliases(ctes) && Aliases(ctes)[name] < limit
  }

  /** The alias table restricted to indices below `limit` is the last-definition rule. */
  lemma {:induction false} AliasesBelowAreSiblings(ctes: seq<Cte>, limit: nat)
    requires limit <= |ctes|
    ensures AliasesBelow(ctes, limit) == Siblings(ctes, limit, LastDefinition)
  {
    if limit == |ctes| {
      AliasIndices(ctes);
      assert ctes[..limit] == ctes && ctes[limit..] == [];
    } else {
      var last := |ctes| - 1;
      var before, name := ctes[..last], CteName(ctes[last].alias);
      AliasesBelowAreSiblings(before, limit);
      assert ctes[..limit] == before[..limit];
      assert ctes[limit..][..last - limit] == before[limit..];
      assert AliasesBelow(ctes, limit) == AliasesBelow(before, limit) - {name};
    }
  }

  lemma {:induction false} InputAt(query: Query, count: nat, index: nat)
    requires WellAddressed(query)
    requires index < count <= |query.ctes|
    ensures query.ctes[index].query.address in Inputs(query, count)
    ensures Inputs(query, count)[query.ctes[index].query.address] == DefinitionLimit(query, index)
  {
    if index < count - 1 {
      InputAt(query, count - 1, index);
    }
  }

  lemma {:induction false} InputsAreDefinitions(query: Query, count: nat)
    requires WellAddressed(query)
    requires count <= |query.ctes|
    ensures Inputs(query, count).Keys !! PartAddresses(query.body)
  {
    if count > 0 {
      InputsAreDefinitions(query, count - 1);
    }
  }

  lemma VisibleAppended(scopes: seq<CteScope>, scope: CteScope)
    ensures VisibleNames(scopes + [scope]) == VisibleNames(scopes) + VisibleIn(scope)
  {
    assert (scopes + [scope])[..|scopes|] == scopes;
  }

  lemma NarrowedInside(scopes: seq<CteScope>, query: Query, index: nat)
    requires WellAddressed(query)
    requires index < |query.ctes|
    ensures var inside := Entered(scopes, query);
            Narrowed(inside, query.ctes[index].query.address)
            == Narrowed(scopes, query.address)
               + [inside[|inside| - 1].(visibleCount := DefinitionLimit(query, index))]
  {
    InputAt(query, |query.ctes|, index);
  }

  lemma AllAliasesAreNames(ctes: seq<Cte>)
    ensures AliasesBelow(ctes, |ctes|) == Names(ctes)
  {
    AliasIndices(ctes);
  }

  /**
   * What definition `index` of `query` sees, computed by the stack: the outer names, and of
   * its own clause all names when it is recursive, else those whose last definition is earlier.
   */
  lemma DefinitionSees(scopes: seq<CteScope>, query: Query, index: nat)
    requires WellAddressed(query)
    requires index < |query.ctes|
    ensures VisibleNames(Narrowed(Entered(scopes, query), query.ctes[index].query.address))
            == VisibleNames(Narrowed(scopes, query.address))
               + if query.recursive then Names(query.ctes)
                 else Names(query.ctes[..index]) - Names(query.ctes[index..])
  {
    var inside, limit := Entered(scopes, query), DefinitionLimit(query, index);
    var scope := inside[|inside| - 1].(visibleCount := limit);
    NarrowedInside(scopes, query, index);
    VisibleAppended(Narrowed(scopes, query.address), scope);
    assert VisibleIn(scope) == AliasesBelow(query.ctes, limit);
    AllAliasesAreNames(query.ctes);
    AliasesBelowAreSiblings(query.ctes, index);
  }

  /** What the body of `query` sees, computed by the stack: the outer names and every definition. */
  lemma BodySees(scopes: seq<CteScope>, query: Query)
    requires WellAddressed(query)
    ensures VisibleNames(Entered(scopes, query))
            == VisibleNames(Narrowed(scopes, query.address)) + Names(query.ctes)
  {
    var inside := Entered(scopes, query);
    VisibleAppended(Narrowed(scopes, query.address), inside[|inside| - 1]);
    AllAliasesAreNames(query.ctes);
    assert VisibleIn(inside[|inside| - 1]) == AliasesBelow(query.ctes, |query.ctes|);
  }

  // ---------------------------------------------------------------- the visitor

  /** What the visitor has collected; DML targets count as relations and as explicit tables. */
  datatype Collected = Collected(relations: set<string>, routines: set<string>,
                                 explicitTables: set<string>, actions: set<Action>,
                                 parameters: set<nat>, rejected: bool)

  function Adding(before: Collected, meaning: Meaning): Collected {
    Collected(before.relations + meaning.bases + meaning.targets,
              before.routines + meaning.routines,
              before.explicitTables + meaning.tables + meaning.targets,
              before.actions + meaning.actions,
              before.parameters + meaning.parameters, before.rejected || meaning.malformed != {})
  }

  lemma AddingBoth(before: Collected, a: Meaning, b: Meaning)
    ensures Adding(Adding(before, a), b) == Adding(before, Both(a, b))
  {
  }

  class SqlAuthorityVisitor {
    var relations: set<string>
    var routines: set<string>
    var explicitTables: set<string>
    var actions: set<Action>
    var parameters: set<nat>
    var invalidParameter: Option<string>
    var cteScopes: seq<CteScope>

    function Collection(): Collected
      reads this
    {
      Collected(relations, routines, explicitTables, actions, parameters, invalidParameter.Some?)
    }

    constructor ()
      ensures Collection() == Collected({}, {}, {}, {}, {}, false)
      ensures cteScopes == []
    {
      relations, routines, explicitTables, actions, cteScopes := {}, {}, {}, {}, [];
      parameters, invalidParameter := {}, None;
    }

    method RecordTarget(name: ObjectName)
      modifies this
      ensures cteScopes == old(cteScopes)
      ensures Collection() == Adding(old(Collection()), NOTHING.(targets := {NormalizeName(name)}))
    {
      var normalized := NormalizeName(name);
      relations := relations + {normalized};
      explicitTables := explicitTables + {normalized};
    }

    method RecordTargets(tables: seq<Option<ObjectName>>)
      modifies this
      ensures cteScopes == old(cteScopes)
      ensures Collection() == Adding(old(Collection()), NOTHING.(targets := TargetNames(tables)))
    {
      for i := 0 to |tables|
        invariant cteScopes == old(cteScopes)
        invariant Collection() == Adding(old(Collection()), NOTHING.(targets := TargetNames(tables[..i])))
      {
        assert tables[..i + 1][..i] == tables[..i];
        if tables[i].Some? {
          RecordTarget(tables[i].value);
        }
      }
      assert tables[..|tables|] == tables;
    }

    static method BuildScope(query: Query, parentVisibleCount: Option<nat>) returns (scope: CteScope)
      ensures scope == NewScope(query, parentVisibleCount)
    {
      scope := CteScope(map[], |query.ctes|, map[], parentVisibleCount);
      for index := 0 to |query.ctes|
        invariant scope == CteScope(Aliases(query.ctes[..index]), |query.ctes|,
                                    Inputs(query, index), parentVisibleCount)
      {
        var cte := query.ctes[index];
        assert query.ctes[..index + 1][..index] == query.ctes[..index];
        scope := scope.(aliases := scope.aliases[CteName(cte.alias) := index],
                        definitionInputs := scope.definitionInputs[cte.query.address :=
                          if query.recursive then |query.ctes| else index]);
      }
      assert query.ctes[..|query.ctes|] == query.ctes;
    }

    method PreVisitQuery(query: Query)
      modifies this
      ensures cteScopes == Entered(old(cteScopes), query)
      ensures Collection() == old(Collection())
    {
      var parentVisibleCount: Option<nat> := None;
      if cteScopes != [] {
        var parent := cteScopes[|cteScopes| - 1];
        if query.address in parent.definitionInputs {
          parentVisibleCount := Some(parent.visibleCount);
          cteScopes := cteScopes[|cteScopes| - 1 :=
                       parent.(visibleCount := parent.definitionInputs[query.address])];
        }
      }
      var scope := BuildScope(query, parentVisibleCount);
      cteScopes := cteScopes + [scope];
    }

    method PostVisitQuery()
      requires cteScopes != []
      modifies this
      ensures cteScopes == Left(old(cteScopes))
      ensures Collection() == old(Collection())
    {
      var scope := cteScopes[|cteScopes| - 1];
      cteScopes := cteScopes[..|cteScopes| - 1];
      match scope.parentVisibleCount
      case Some(previous) =>
        if cteScopes != [] {
          var parent := cteScopes[|cteScopes| - 1];
          cteScopes := cteScopes[|cteScopes| - 1 := parent.(visibleCount := previous)];
        }
      case None =>
    }

    method PreVisitStatement(kind: StatementKind)
      modifies this
      ensures cteScopes == old(cteScopes)
      ensures Collection() == Adding(old(Collection()), KindMeaning(kind))
    {
      match kind {
        case QueryStatement =>
          actions := actions + {Select};
        case InsertStatement(into, onConflict) =>
          RecordTargets([into]);
          actions := actions + {if onConflict then Upsert else Insert};
        case UpdateStatement(table) =>
          RecordTargets([table]);
          actions := actions + {Update};
        case DeleteStatement(from) =>
          RecordTargets(from);
          actions := actions + {Delete};
        case CallStatement(routine) =>
          actions := actions + {Execute};
          routines := routines + {NormalizeName(routine)};
        case OtherStatement =>
      }
    }

    /** Table factors and scalar function calls. */
    method PreVisitFactor(node: Node)
      requires node.TableFactor? || node.TableFunction? || node.FunctionCall?
      modifies this
      ensures cteScopes == old(cteScopes)
      ensures forall visible, scoping ::
        Collection() == Adding(old(Collection()), NodeMeaning(node, visible, scoping))
    {
      var normalized := NormalizeName(node.name);
      if node.TableFactor? && !node.arguments {
        explicitTables := explicitTables + {normalized};
      } else {
        actions := actions + {Execute};
        routines := routines + {normalized};
      }
    }

    method PreVisitPlaceholder(text: string)
      modifies this
      ensures cteScopes == old(cteScopes)
      ensures forall visible, scoping ::
        Collection() == Adding(old(Collection()), NodeMeaning(Placeholder(text), visible, scoping))
    {
      var number := ParameterNumber(text);
      if number.Some? {
        parameters := parameters + {number.value};
      } else {
        invalidParameter := Some(text);
      }
    }

    method PreVisitRelation(relation: ObjectName)
      modifies this
      ensures cteScopes == old(cteScopes)
      ensures Collection() == Adding(old(Collection()),
        NodeMeaning(Relation(relation), VisibleNames(cteScopes), LastDefinition))
    {
      var isCte := false;
      if |relation| == 1 && relation[0].Named? {
        var name := CteName(relation[0].ident);
        assert cteScopes[..|cteScopes|] == cteScopes;
        var i := |cteScopes|;
        while i > 0 && !isCte
          invariant 0 <= i <= |cteScopes|
          invariant isCte ==> name in VisibleNames(cteScopes)
          invariant !isCte ==> (name in VisibleNames(cteScopes) <==> name in VisibleNames(cteScopes[..i]))
        {
          i := i - 1;
          assert cteScopes[..i + 1][..i] == cteScopes[..i];
          var scope := cteScopes[i];
          if name in scope.aliases && scope.aliases[name] < scope.visibleCount {
            isCte := true;
          }
        }
      }
      if !isCte {
        relations := relations + {NormalizeName(relation)};
      }
    }

    method VisitNode(node: Node)
      requires WellAddressedNode(node)
      requires cteScopes != [] ==>
                 cteScopes[|cteScopes| - 1].definitionInputs.Keys !! NodeAddresses(node)
      modifies this
      ensures cteScopes == old(cteScopes)
      ensures Collection() == Adding(old(Collection()),
        NodeMeaning(node, VisibleNames(cteScopes), LastDefinition))
      decreases node
    {
      match node {
        case Relation(name) => PreVisitRelation(name);
        case Placeholder(text) => PreVisitPlaceholder(text);
        case Nested(statement) => VisitStatement(statement);
        case Subquery(query) => VisitQuery(query);
        case _ => PreVisitFactor(node);
      }
    }

    method VisitParts(nodes: seq<Node>)
      requires forall i :: 0 <= i < |nodes| ==> WellAddressedNode(nodes[i])
      requires cteScopes != [] ==>
                 cteScopes[|cteScopes| - 1].definitionInputs.Keys !! PartAddresses(nodes)
      modifies this
      ensures cteScopes == old(cteScopes)
      ensures Collection() == Adding(old(Collection()),
        PartsMeaning(nodes, VisibleNames(cteScopes), LastDefinition))
      decreases nodes
    {
      for i := 0 to |nodes|
        invariant cteScopes == old(cteScopes)
        invariant Collection() == Adding(old(Collection()),
          PartsMeaning(nodes[..i], VisibleNames(cteScopes), LastDefinition))
      {
        PartAddressesContain(nodes, i);
        ghost var before := PartsMeaning(nodes[..i], VisibleNames(cteScopes), LastDefinition);
        ghost var here := NodeMeaning(nodes[i], VisibleNames(cteScopes), LastDefinition);
        VisitNode(nodes[i]);
        AddingBoth(old(Collection()), before, here);
        assert nodes[..i + 1][..i] == nodes[..i];
      }
      assert nodes[..|nodes|] == nodes;
    }

    method VisitStatement(statement: Statement)
      requires WellAddressedStatement(statement)
      requires cteScopes != [] ==>
                 cteScopes[|cteScopes| - 1].definitionInputs.Keys !! PartAddresses(statement.parts)
      modifies this
      ensures cteScopes == old(cteScopes)
      ensures Collection() == Adding(old(Collection()),
        StatementMeaning(statement, VisibleNames(cteScopes), LastDefinition))
      decreases statement
    {
      PreVisitStatement(statement.kind);
      VisitParts(statement.parts);
      AddingBoth(old(Collection()), KindMeaning(statement.kind),
                 PartsMeaning(statement.parts, VisibleNames(cteScopes), LastDefinition));
    }

    method VisitDefinition(query: Query, index: nat, ghost outer: seq<CteScope>)
      requires WellAddressed(query) && index < |query.ctes|
      requires cteScopes == Entered(outer, query)
      modifies this
      ensures cteScopes == old(cteScopes)
      ensures Collection() == Adding(old(Collection()),
        QueryMeaning(query.ctes[index].query,
          VisibleNames(Narrowed(outer, query.address)) + Seen(query, index, LastDefinition), LastDefinition))
      decreases query, 0, 0
    {
      DefinitionSees(outer, query, index);
      VisitQuery(query.ctes[index].query);
    }

    method VisitDefinitions(query: Query, ghost outer: seq<CteScope>)
      requires WellAddressed(query)
      requires cteScopes == Entered(outer, query)
      modifies this
      ensures cteScopes == old(cteScopes)
      ensures Collection() == Adding(old(Collection()),
        DefinitionsMeaning(query, |query.ctes|, VisibleNames(Narrowed(outer, query.address)), LastDefinition))
      decreases query, 0, 1
    {
      ghost var visible := VisibleNames(Narrowed(outer, query.address));
      for i := 0 to |query.ctes|
        invariant cteScopes == old(cteScopes)
        invariant Collection() == Adding(old(Collection()),
          DefinitionsMeaning(query, i, visible, LastDefinition))
      {
        VisitDefinition(query, i, outer);
        AddingBoth(old(Collection()), DefinitionsMeaning(query, i, visible, LastDefinition),
          QueryMeaning(query.ctes[i].query,
            visible + Seen(query, i, LastDefinition), LastDefinition));
      }
    }

    /** The whole walk of a query: its meaning is added and every scope is put back. */
    method VisitQuery(query: Query)
      requires WellAddressed(query)
      modifies this
      ensures cteScopes == old(cteScopes)
      ensures Collection() == Adding(old(Collection()),
        QueryMeaning(query, VisibleNames(Narrowed(cteScopes, query.address)), LastDefinition))
      decreases query, 1
    {
      ghost var visible := VisibleNames(Narrowed(cteScopes, query.address));
      PreVisitQuery(query);
      VisitDefinitions(query, old(cteScopes));
      InputsAreDefinitions(query, |query.ctes|);
      BodySees(old(cteScopes), query);
      VisitParts(query.body);
      AddingBoth(old(Collection()), DefinitionsMeaning(query, |query.ctes|, visible, LastDefinition),
        PartsMeaning(query.body, visible + Names(query.ctes), LastDefinition));
      LeavingUndoesEntering(old(cteScopes), query);
      PostVisitQuery();
    }
  }

  lemma {:induction false} PartAddressesContain(nodes: seq<Node>, i: nat)
    requires i < |nodes|
    ensures NodeAddresses(nodes[i]) <= PartAddresses(nodes)
  {
    if i < |nodes| - 1 {
      assert nodes[..|nodes| - 1][i] == nodes[i];
      PartAddressesContain(nodes[..|nodes| - 1], i);
    }
  }

  // ---------------------------------------------------------------- relation to the SQL scoping rule

  ghost predicate DistinctAliases(ctes: seq<Cte>) {
    forall i, j :: 0 <= i < j < |ctes| ==> CteName(ctes[i].alias) != CteName(ctes[j].alias)
  }

  lemma {:induction false} NamesAt(ctes: seq<Cte>, name: string)
    ensures name in Names(ctes) <==> exists i :: 0 <= i < |ctes| && CteName(ctes[i].alias) == name
  {
    if ctes != [] {
      var before := ctes[..|ctes| - 1];
      NamesAt(before, name);
      assert forall i :: 0 <= i < |before| ==> before[i] == ctes[i];
      if name in Names(before) {
        var i :| 0 <= i < |before| && CteName(before[i].alias) == name;
        assert CteName(ctes[i].alias) == name;
      }
    }
  }

  /** The two scoping rules agree at every limit of a WITH clause exactly when its names are distinct. */
  lemma ScopingsAgree(ctes: seq<Cte>)
    ensures (forall limit: nat :: limit <= |ctes| ==>
               Siblings(ctes, limit, LastDefinition) == Siblings(ctes, limit, Lexical))
            <==> DistinctAliases(ctes)
  {
    if DistinctAliases(ctes) {
      forall limit: nat, name | limit <= |ctes| && name in Names(ctes[..limit])
        ensures name !in Names(ctes[limit..])
      {
        NamesAt(ctes[..limit], name);
        NamesAt(ctes[limit..], name);
      }
    } else {
      var i, j :| 0 <= i < j < |ctes| && CteName(ctes[i].alias) == CteName(ctes[j].alias);
      var name := CteName(ctes[i].alias);
      NamesAt(ctes[..j], name);
      NamesAt(ctes[j..], name);
      assert ctes[..j][i] == ctes[i] && ctes[j..][0] == ctes[j];
      assert name in Siblings(ctes, j, Lexical) && name !in Siblings(ctes, j, LastDefinition);
    }
  }

  /**
   * No definition is hidden by a later one of its name where it could be seen: a
   * recursive clause shows all names at once, any other clause has distinct ones.
   */
  ghost predicate PlainlyNamed(query: Query)
    decreases query
  {
    && (query.recursive || DistinctAliases(query.ctes))
    && (forall i :: 0 <= i < |query.ctes| ==> PlainlyNamed(query.ctes[i].query))
    && (forall i :: 0 <= i < |query.body| ==> PlainNode(query.body[i]))
  }

  ghost predicate PlainNode(node: Node)
    decreases node
  {
    match node
    case Subquery(query) => PlainlyNamed(query)
    case Nested(statement) => PlainStatement(statement)
    case _ => true
  }

  ghost predicate PlainStatement(statement: Statement)
    decreases statement
  {
    forall i :: 0 <= i < |statement.parts| ==> PlainNode(statement.parts[i])
  }

  /** `over` reports everything `exact` does, and differs from it in reads only. */
  predicate OverReports(over: Meaning, exact: Meaning) {
    exact.bases <= over.bases && over.(bases := {}) == exact.(bases := {})
  }

  lemma BothOverReport(over: Meaning, exact: Meaning, over': Meaning, exact': Meaning)
    requires OverReports(over, exact) && OverReports(over', exact')
    ensures OverReports(Both(over, over'), Both(exact, exact'))
  {
  }

  lemma {:induction false} QueryOverReports(query: Query, narrow: set<string>, wide: set<string>)
    requires narrow <= wide
    ensures OverReports(QueryMeaning(query, narrow, LastDefinition), QueryMeaning(query, wide, Lexical))
    decreases query, 1
  {
    var narrower, wider := narrow + Names(query.ctes), wide + Names(query.ctes);
    DefinitionsOverReport(query, |query.ctes|, narrow, wide);
    PartsOverReport(query.body, narrower, wider);
    BothOverReport(DefinitionsMeaning(query, |query.ctes|, narrow, LastDefinition),
                   DefinitionsMeaning(query, |query.ctes|, wide, Lexical),
                   PartsMeaning(query.body, narrower, LastDefinition), PartsMeaning(query.body, wider, Lexical));
  }

  lemma {:induction false} DefinitionsOverReport(query: Query, count: nat, narrow: set<string>, wide: set<string>)
    requires count <= |query.ctes|
    requires narrow <= wide
    ensures OverReports(DefinitionsMeaning(query, count, narrow, LastDefinition),
                        DefinitionsMeaning(query, count, wide, Lexical))
    decreases query, 0, count
  {
    if count > 0 {
      var definition := query.ctes[count - 1].query;
      var narrower := narrow + Seen(query, count - 1, LastDefinition);
      var wider := wide + Seen(query, count - 1, Lexical);
      DefinitionsOverReport(query, count - 1, narrow, wide);
      QueryOverReports(definition, narrower, wider);
      BothOverReport(DefinitionsMeaning(query, count - 1, narrow, LastDefinition),
                     DefinitionsMeaning(query, count - 1, wide, Lexical),
                     QueryMeaning(definition, narrower, LastDefinition), QueryMeaning(definition, wider, Lexical));
    }
  }

  lemma {:induction false} NodeOverReports(node: Node, narrow: set<string>, wide: set<string>)
    requires narrow <= wide
    ensures OverReports(NodeMeaning(node, narrow, LastDefinition), NodeMeaning(node, wide, Lexical))
    decreases node
  {
    match node
    case Subquery(query) => QueryOverReports(query, narrow, wide);
    case Nested(statement) => StatementOverReports(statement, narrow, wide);
    case _ =>
  }

  lemma {:induction false} StatementOverReports(statement: Statement, narrow: set<string>, wide: set<string>)
    requires narrow <= wide
    ensures OverReports(StatementMeaning(statement, narrow, LastDefinition),
                        StatementMeaning(statement, wide, Lexical))
    decreases statement
  {
    PartsOverReport(statement.parts, narrow, wide);
  }

  lemma {:induction false} PartsOverReport(nodes: seq<Node>, narrow: set<string>, wide: set<string>)
    requires narrow <= wide
    ensures OverReports(PartsMeaning(nodes, narrow, LastDefinition), PartsMeaning(nodes, wide, Lexical))
    decreases nodes
  {
    if nodes != [] {
      var before, last := nodes[..|nodes| - 1], nodes[|nodes| - 1];
      PartsOverReport(before, narrow, wide);
      NodeOverReports(last, narrow, wide);
      BothOverReport(PartsMeaning(before, narrow, LastDefinition), PartsMeaning(before, wide, Lexical),
                     NodeMeaning(last, narrow, LastDefinition), NodeMeaning(last, wide, Lexical));
    }
  }

  lemma {:induction false} QueryIsExact(query: Query, visible: set<string>)
    requires PlainlyNamed(query)
    ensures QueryMeaning(query, visible, LastDefinition) == QueryMeaning(query, visible, Lexical)
    decreases query, 1
  {
    DefinitionsAreExact(query, |query.ctes|, visible);
    PartsAreExact(query.body, visible + Names(query.ctes));
  }

  lemma SeenAgree(query: Query, index: nat)
    requires (query.recursive || DistinctAliases(query.ctes)) && index < |query.ctes|
    ensures Seen(query, index, LastDefinition) == Seen(query, index, Lexical)
  {
    if !query.recursive {
      ScopingsAgree(query.ctes);
    }
  }

  lemma {:induction false} DefinitionsAreExact(query: Query, count: nat, visible: set<string>)
    requires PlainlyNamed(query)
    requires count <= |query.ctes|
    ensures DefinitionsMeaning(query, count, visible, LastDefinition)
            == DefinitionsMeaning(query, count, visible, Lexical)
    decreases query, 0, count
  {
    if count > 0 {
      DefinitionsAreExact(query, count - 1, visible);
      NextDefinitionIsExact(query, count - 1, visible);
    }
  }

  lemma {:induction false} NextDefinitionIsExact(query: Query, index: nat, visible: set<string>)
    requires PlainlyNamed(query) && index < |query.ctes|
    requires DefinitionsMeaning(query, index, visible, LastDefinition)
             == DefinitionsMeaning(query, index, visible, Lexical)
    ensures DefinitionsMeaning(query, index + 1, visible, LastDefinition)
            == DefinitionsMeaning(query, index + 1, visible, Lexical)
    decreases query, 0, 0
  {
    SeenAgree(query, index);
    QueryIsExact(query.ctes[index].query, visible + Seen(query, index, Lexical));
    OneMoreDefinition(query, index, visible);
  }

  lemma OneMoreDefinition(query: Query, index: nat, visible: set<string>)
    requires index < |query.ctes| && Seen(query, index, LastDefinition) == Seen(query, index, Lexical)
    requires DefinitionsMeaning(query, index, visible, LastDefinition)
             == DefinitionsMeaning(query, index, visible, Lexical)
    requires var seen := visible + Seen(query, index, Lexical);
             QueryMeaning(query.ctes[index].query, seen, LastDefinition)
             == QueryMeaning(query.ctes[index].query, seen, Lexical)
    ensures DefinitionsMeaning(query, index + 1, visible, LastDefinition)
            == DefinitionsMeaning(query, index + 1, visible, Lexical)
  {
  }

  lemma {:induction false} NodeIsExact(node: Node, visible: set<string>)
    requires PlainNode(node)
    ensures NodeMeaning(node, visible, LastDefinition) == NodeMeaning(node, visible, Lexical)
    decreases node
  {
    match node
    case Subquery(query) => QueryIsExact(query, visible);
    case Nested(statement) => StatementIsExact(statement, visible);
    case _ =>
  }

  lemma {:induction false} StatementIsExact(statement: Statement, visible: set<string>)
    requires PlainStatement(statement)
    ensures StatementMeaning(statement, visible, LastDefinition) == StatementMeaning(statement, visible, Lexical)
    decreases statement
  {
    PartsAreExact(statement.parts, visible);
  }

  lemma {:induction false} PartsAreExact(nodes: seq<Node>, visible: set<string>)
    requires forall i :: 0 <= i < |nodes| ==> PlainNode(nodes[i])
    ensures PartsMeaning(nodes, visible, LastDefinition) == PartsMeaning(nodes, visible, Lexical)
    decreases nodes
  {
    if nodes != [] {
      var before, last := nodes[..|nodes| - 1], nodes[|nodes| - 1];
      assert forall i :: 0 <= i < |before| ==> before[i] == nodes[i];
      PartsAreExact(before, visible);
      NodeIsExact(last, visible);
    }
  }

  // ---------------------------------------------------------------- where names repeat

  function AliasesOf(ctes: seq<Cte>): seq<Identifier> {
    seq(|ctes|, k requires 0 <= k < |ctes| => ctes[k].alias)
  }

  ghost predicate DistinctIdentifiers(aliases: seq<Identifier>) {
    forall i, j :: 0 <= i < j < |aliases| ==> CteName(aliases[i]) != CteName(aliases[j])
  }

  /** `WITH` the given aliases: definition `j` reads its own name, the others read nothing. */
  function Probe(aliases: seq<Identifier>, j: nat): (query: Query)
    requires j < |aliases|
    ensures |query.ctes| == |aliases| && !query.recursive && query.body == []
    ensures forall k :: 0 <= k < |aliases| ==>
      query.ctes[k] == Cte(aliases[k], Query(k + 1, false, [], if k == j then [Reading(aliases[j])] else []))
  {
    Query(0, false,
          seq(|aliases|, k requires 0 <= k < |aliases| =>
            Cte(aliases[k], Query(k + 1, false, [], if k == j then [Reading(aliases[j])] else []))), [])
  }

  function Reading(name: Identifier): Node {
    Relation([Named(name)])
  }

  lemma EmptyMeansNothing(query: Query, visible: set<string>, scoping: Scoping)
    requires query.ctes == [] && query.body == []
    ensures QueryMeaning(query, visible, scoping) == NOTHING
  {
  }

  lemma ReadOnce(query: Query, visible: set<string>, scoping: Scoping)
    requires query.ctes == [] && |query.body| == 1 && query.body[0].Relation?
    ensures QueryMeaning(query, visible, scoping) == NodeMeaning(query.body[0], visible, scoping)
  {
    var read := NodeMeaning(query.body[0], visible, scoping);
    assert query.body[..0] == [];
    assert Both(NOTHING, read) == read;
    assert PartsMeaning(query.body, visible, scoping) == read;
    assert visible + Names(query.ctes) == visible;
    assert DefinitionsMeaning(query, 0, visible, scoping) == NOTHING;
  }

  lemma ProbeDefinition(aliases: seq<Identifier>, j: nat, k: nat, visible: set<string>, scoping: Scoping)
    requires j < |aliases| && k < |aliases|
    ensures QueryMeaning(Probe(aliases, j).ctes[k].query, visible, scoping).bases
            == if k == j then NodeMeaning(Reading(aliases[j]), visible, scoping).bases else {}
  {
    var definition := Probe(aliases, j).ctes[k].query;
    if k == j {
      ReadOnce(definition, visible, scoping);
    } else {
      EmptyMeansNothing(definition, visible, scoping);
    }
  }

  /** What definition `k` of the query reads. */
  function DefinitionBases(query: Query, k: nat, visible: set<string>, scoping: Scoping): set<string>
    requires k < |query.ctes|
  {
    QueryMeaning(query.ctes[k].query, visible + Seen(query, k, scoping), scoping).bases
  }

  lemma NextDefinitionReads(query: Query, count: nat, visible: set<string>, scoping: Scoping, name: string)
    requires 0 < count <= |query.ctes|
    ensures name in DefinitionsMeaning(query, count, visible, scoping).bases
            <==> name in DefinitionsMeaning(query, count - 1, visible, scoping).bases
                 || name in DefinitionBases(query, count - 1, visible, scoping)
  {
  }

  lemma {:induction false} OneDefinitionReads(query: Query, j: nat, count: nat, visible: set<string>, scoping: Scoping,
                                              name: string)
    requires j < |query.ctes| && count <= |query.ctes|
    requires forall k :: 0 <= k < |query.ctes| && k != j ==> name !in DefinitionBases(query, k, visible, scoping)
    ensures name in DefinitionsMeaning(query, count, visible, scoping).bases
            <==> count > j && name in DefinitionBases(query, j, visible, scoping)
  {
    if count > 0 {
      OneDefinitionReads(query, j, count - 1, visible, scoping, name);
      NextDefinitionReads(query, count, visible, scoping, name);
    }
  }

  lemma ProbeBases(aliases: seq<Identifier>, j: nat, k: nat, scoping: Scoping)
    requires j < |aliases| && k < |aliases|
    ensures var query := Probe(aliases, j);
            DefinitionBases(query, k, {}, scoping)
            == if k == j then NodeMeaning(Reading(aliases[j]), Siblings(query.ctes, j, scoping), scoping).bases else {}
  {
    var seen := Siblings(Probe(aliases, j).ctes, k, scoping);
    assert {} + seen == seen;
    ProbeDefinition(aliases, j, k, seen, scoping);
  }

  lemma ProbeReads(aliases: seq<Identifier>, j: nat, scoping: Scoping)
    requires j < |aliases|
    ensures var query := Probe(aliases, j);
            QueryMeaning(query, {}, scoping).bases
            == NodeMeaning(Reading(aliases[j]), Siblings(query.ctes, j, scoping), scoping).bases
  {
    var query := Probe(aliases, j);
    forall k | 0 <= k < |aliases|
      ensures k != j ==> DefinitionBases(query, k, {}, scoping) == {}
    {
      ProbeBases(aliases, j, k, scoping);
    }
    forall name: string
      ensures name in DefinitionsMeaning(query, |aliases|, {}, scoping).bases
              <==> name in DefinitionBases(query, j, {}, scoping)
    {
      OneDefinitionReads(query, j, |aliases|, {}, scoping, name);
    }
    ProbeBases(aliases, j, j, scoping);
    BodilessQuery(query, {}, scoping);
  }

  lemma BodilessQuery(query: Query, visible: set<string>, scoping: Scoping)
    requires query.body == []
    ensures QueryMeaning(query, visible, scoping).bases
            == DefinitionsMeaning(query, |query.ctes|, visible, scoping).bases
  {
  }

  /** Where definition `j` reads a name that was defined before, the walk does not see the definition. */
  lemma ProbeSees(aliases: seq<Identifier>, i: nat, j: nat)
    requires i < j < |aliases| && CteName(aliases[i]) == CteName(aliases[j])
    ensures var ctes := Probe(aliases, j).ctes;
            && CteName(aliases[j]) in Siblings(ctes, j, Lexical)
            && CteName(aliases[j]) !in Siblings(ctes, j, LastDefinition)
  {
    var ctes, name := Probe(aliases, j).ctes, CteName(aliases[j]);
    NamesAt(ctes[..j], name);
    NamesAt(ctes[j..], name);
    assert CteName(ctes[..j][i].alias) == name && CteName(ctes[j..][0].alias) == name;
  }

  lemma ProbeIsPlain(aliases: seq<Identifier>, j: nat)
    requires j < |aliases|
    ensures WellAddressed(Probe(aliases, j)) && PlainlyNamedInside(Probe(aliases, j))
    ensures AliasesOf(Probe(aliases, j).ctes) == aliases
  {
    var query := Probe(aliases, j);
    forall k | 0 <= k < |query.ctes|
      ensures WellAddressed(query.ctes[k].query) && PlainlyNamed(query.ctes[k].query)
    {
      var body := query.ctes[k].query.body;
      assert forall n :: 0 <= n < |body| ==> body[n] == Reading(aliases[j]);
    }
  }

  /**
   * Whenever a clause that is not recursive repeats a name, a query with these aliases
   * makes the walk report a relation that SQL visibility hides.
   */
  lemma RepeatedNameOverReports(aliases: seq<Identifier>, i: nat, j: nat)
    requires i < j < |aliases| && CteName(aliases[i]) == CteName(aliases[j])
    ensures var query := Probe(aliases, j);
            && QueryMeaning(query, {}, LastDefinition).bases == {NormalizeName([Named(aliases[j])])}
            && QueryMeaning(query, {}, Lexical).bases == {}
  {
    ProbeReads(aliases, j, LastDefinition);
    ProbeReads(aliases, j, Lexical);
    ProbeSees(aliases, i, j);
  }

  /** Everything inside the clause's definitions and body is plainly named. */
  ghost predicate PlainlyNamedInside(query: Query) {
    && (forall i :: 0 <= i < |query.ctes| ==> PlainlyNamed(query.ctes[i].query))
    && (forall i :: 0 <= i < |query.body| ==> PlainNode(query.body[i]))
  }

  /** The walk is exact on every query with these aliases. */
  ghost predicate AlwaysExact(aliases: seq<Identifier>, recursive: bool) {
    forall query :: PlainlyNamedInside(query) && query.recursive == recursive && AliasesOf(query.ctes) == aliases ==>
      QueryMeaning(query, {}, LastDefinition) == QueryMeaning(query, {}, Lexical)
  }

  /** A clause never misleads the walk if and only if it is recursive or its names are distinct. */
  lemma ExactIffPlainlyNamed(aliases: seq<Identifier>, recursive: bool)
    ensures AlwaysExact(aliases, recursive) <==> recursive || DistinctIdentifiers(aliases)
  {
    if recursive || DistinctIdentifiers(aliases) {
      forall query | PlainlyNamedInside(query) && query.recursive == recursive && AliasesOf(query.ctes) == aliases
        ensures QueryMeaning(query, {}, LastDefinition) == QueryMeaning(query, {}, Lexical)
      {
        AliasesDecide(query, aliases);
        QueryIsExact(query, {});
      }
    } else {
      var i, j :| 0 <= i < j < |aliases| && CteName(aliases[i]) == CteName(aliases[j]);
      RepeatedNameOverReports(aliases, i, j);
      ProbeIsPlain(aliases, j);
    }
  }

  lemma AliasesDecide(query: Query, aliases: seq<Identifier>)
    requires AliasesOf(query.ctes) == aliases
    ensures DistinctIdentifiers(aliases) <==> DistinctAliases(query.ctes)
  {
    assert forall k :: 0 <= k < |aliases| ==> aliases[k] == AliasesOf(query.ctes)[k] == query.ctes[k].alias;
  }

  // ---------------------------------------------------------------- single names

  /**
   * In a definition of a recursive clause, and in whatever scopes are nested in it, a
   * relation that names one of the clause's aliases is no base relation.
   */
  lemma RecursiveNamesAreHidden(query: Query, index: nat, name: Identifier, visible: set<string>, inner: set<string>,
                                scoping: Scoping, k: nat)
    requires query.recursive && index < |query.ctes| && k < |query.ctes|
    requires CteName(name) == CteName(query.ctes[k].alias)
    ensures NodeMeaning(Reading(name), visible + Seen(query, index, scoping) + inner, scoping) == NOTHING
  {
    NamesAt(query.ctes, CteName(name));
  }

  /** A qualified name is a base relation whatever is visible; a single one unless a visible definition has it. */
  lemma RelationIsBase(name: ObjectName, visible: set<string>, scoping: Scoping)
    ensures NodeMeaning(Relation(name), visible, scoping).bases <= {NormalizeName(name)}
    ensures |name| != 1 ==> NodeMeaning(Relation(name), visible, scoping).bases == {NormalizeName(name)}
    ensures |name| == 1 && name[0].Named? ==>
      (NodeMeaning(Relation(name), visible, scoping).bases == {} <==>
       exists v :: v in visible && (if name[0].ident.quoted then v == name[0].ident.value
                                    else v == Lower(name[0].ident.value)))
  {
    assert NormalizeName(name) in {NormalizeName(name)};
  }

  lemma LowerIsFixed(s: string)
    ensures Lower(Lower(s)) == Lower(s)
  {
    assert forall i :: 0 <= i < |s| ==> LowerChar(LowerChar(s[i])) == LowerChar(s[i]);
  }

  /** Without quotes the case of a name does not matter; with them it does. */
  lemma CteNamesFoldCase(a: string, b: string)
    ensures CteName(Identifier(a, true)) == CteName(Identifier(b, true)) <==> a == b
    ensures CteName(Identifier(a, false)) == CteName(Identifier(b, false)) <==>
            |a| == |b| && forall i :: 0 <= i < |a| ==> LowerChar(a[i]) == LowerChar(b[i])
    ensures CteName(Identifier(Lower(a), true)) == CteName(Identifier(a, false))
  {
    assert forall i :: 0 <= i < |a| ==> Lower(a)[i] == LowerChar(a[i]);
    assert forall i :: 0 <= i < |b| ==> Lower(b)[i] == LowerChar(b[i]);
  }

  /** Names without dots and quotes inside: the parts in lower case, joined by dots. */
  function Dotted(parts: seq<Identifier>): string
    requires parts != []
  {
    Lower(parts[0].value) + if |parts| == 1 then "" else "." + Dotted(parts[1..])
  }

  function NameOf(parts: seq<Identifier>): ObjectName {
    seq(|parts|, i requires 0 <= i < |parts| => Named(parts[i]))
  }

  predicate IsSimple(s: string) {
    s != "" && '.' !in s && '"' !in s
  }

  lemma {:induction false} EscapeOfSimple(s: string)
    requires '"' !in s
    ensures Escape(s) == s
  {
    if s != "" {
      EscapeOfSimple(s[1..]);
      assert [s[0]] + s[1..] == s;
    }
  }

  /** Reading a piece to the next dot, or to the end. */
  lemma {:induction false} PieceIsRead(piece: string, more: string, rest: string)
    requires '.' !in more
    ensures NormalizeText(more + rest, piece) == NormalizeText(rest, piece + more)
    decreases |more|
  {
    if more == "" {
      assert more + rest == rest && piece + more == piece;
    } else {
      assert (more + rest)[1..] == more[1..] + rest;
      PieceIsRead(piece + [more[0]], more[1..], rest);
      assert piece + [more[0]] + more[1..] == piece + more;
    }
  }

  function DisplayPart(part: Identifier): string {
    if part.quoted then "\"" + Escape(part.value) + "\"" else part.value
  }

  lemma PartIsRead(part: Identifier)
    requires IsSimple(part.value)
    ensures '.' !in DisplayPart(part) && Lower(Trim(DisplayPart(part), IsQuote)) == Lower(part.value)
  {
    EscapeOfSimple(part.value);
    TrimmedIsFixed(part.value, IsQuote);
    if part.quoted {
      QuotedTrims(part.value);
    }
  }

  lemma QuotedTrims(s: string)
    requires IsSimple(s)
    ensures Trim("\"" + s + "\"", IsQuote) == s
  {
    var ended := s + "\"";
    assert ("\"" + s + "\"")[1..] == ended;
    assert TrimStart("\"" + s + "\"", IsQuote) == TrimStart(ended, IsQuote) == ended;
    assert ended[..|ended| - 1] == s;
    assert TrimEnd(ended, IsQuote) == TrimEnd(s, IsQuote) == s;
  }

  lemma {:induction false} NameNormalizes(parts: seq<Identifier>)
    requires parts != [] && forall i :: 0 <= i < |parts| ==> IsSimple(parts[i].value)
    ensures NormalizeName(NameOf(parts)) == Dotted(parts)
  {
    var shown, name := DisplayPart(parts[0]), NameOf(parts);
    PartIsRead(parts[0]);
    assert name[0] == Named(parts[0]);
    if |parts| == 1 {
      PieceIsRead("", shown, "");
      assert shown + "" == shown && "" + shown == shown;
    } else {
      var rest := Display(NameOf(parts[1..]));
      NameNormalizes(parts[1..]);
      assert name[1..] == NameOf(parts[1..]);
      assert Display(name) == shown + ("." + rest);
      PieceIsRead("", shown, "." + rest);
      assert "" + shown == shown && ("." + rest)[1..] == rest;
    }
  }

  // ---------------------------------------------------------------- placeholders

  function Digit(n: nat): char
    requires n < 10
  {
    (n + '0' as int) as char
  }

  /** The decimal numeral of a number. */
  function Numeral(n: nat): string {
    if n < 10 then [Digit(n)] else Numeral(n / 10) + [Digit(n % 10)]
  }

  lemma {:induction false} NumeralValue(n: nat)
    ensures Numeral(n) != "" && DigitsValue(Numeral(n)) == Some(n) && '0' <= Numeral(n)[0] <= '9'
  {
    if n < 10 {
      assert [Digit(n)][..0] == "";
    } else {
      NumeralValue(n / 10);
      var text := Numeral(n);
      assert text[..|text| - 1] == Numeral(n / 10) && text[|text| - 1] == Digit(n % 10);
    }
  }

  /** `$n` is read as the number it spells, exactly from one to the largest 64-bit number. */
  lemma PlaceholderReads(n: nat)
    ensures ParameterNumber("$" + Numeral(n)) == if 0 < n <= MAX_PARAMETER then Some(n) else None
  {
    NumeralValue(n);
    var text := "$" + Numeral(n);
    assert text[1] == Numeral(n)[0] && text[1..] == Numeral(n);
  }

  /** A plus sign in front of the number changes nothing. */
  lemma PlusPlaceholderReads(n: nat)
    ensures ParameterNumber("$+" + Numeral(n)) == ParameterNumber("$" + Numeral(n))
  {
    NumeralValue(n);
    PlaceholderReads(n);
    var text := "$+" + Numeral(n);
    assert text[1] == '+' && text[2..] == Numeral(n);
  }

  /** Nothing that does not start with a dollar sign, or has no digits, is a parameter. */
  lemma OtherPlaceholdersAreMalformed(text: string)
    ensures ParameterNumber(text).Some? ==>
      |text| > 1 && text[0] == '$' && '0' <= text[|text| - 1] <= '9'
  {
  }

  /** What is shown of a quoted identifier: quotes inside it are doubled, and nothing else changes. */
  function Unescape(s: string): string {
    if s == "" then ""
    else if |s| > 1 && s[0] == '"' && s[1] == '"' then "\"" + Unescape(s[2..])
    else [s[0]] + Unescape(s[1..])
  }

  lemma {:induction false} EscapeDoublesQuotes(s: string)
    ensures Unescape(Escape(s)) == s
    ensures '"' !in s ==> Escape(s) == s
  {
    if s != "" {
      EscapeDoublesQuotes(s[1..]);
      var escaped := Escape(s);
      if s[0] == '"' {
        assert escaped[..2] == "\"\"" && escaped[2..] == Escape(s[1..]);
      } else {
        assert escaped[0] == s[0] && escaped[1..] == Escape(s[1..]);
      }
      assert s == [s[0]] + s[1..];
    }
  }

  /** What each callback of the walk records. */
  lemma CallbacksRecord(name: ObjectName, visible: set<string>, scoping: Scoping)
    ensures var called := Meaning({}, {}, {NormalizeName(name)}, {}, {Execute}, {}, {});
      && NodeMeaning(FunctionCall(name), visible, scoping) == called
      && NodeMeaning(TableFunction(name), visible, scoping) == called
      && NodeMeaning(TableFactor(name, true), visible, scoping) == called
    ensures NodeMeaning(TableFactor(name, false), visible, scoping) ==
      Meaning({}, {}, {}, {NormalizeName(name)}, {}, {}, {})
  {
  }

  // ---------------------------------------------------------------- the analysis

  datatype Analysis = Analysis(relations: set<string>, routines: set<string>, actions: set<Action>)

  /** Relations left after names that only ever occur as routines are dropped. */
  function Retained(relations: set<string>, routines: set<string>, tables: set<string>): set<string> {
    set relation | relation in relations && (relation !in routines || relation in tables)
  }

  function AnalysisOf(meaning: Meaning): Analysis {
    Analysis(Retained(meaning.bases + meaning.targets, meaning.routines, meaning.tables + meaning.targets),
             meaning.routines, meaning.actions)
  }

  predicate Supported(kind: StatementKind) {
    !kind.OtherStatement?
  }

  /** The largest parameter number, which is the arity of the statement; unused positions are allowed. */
  ghost predicate IsArity(count: nat, parameters: set<nat>) {
    && (forall number :: number in parameters ==> number <= count)
    && (if parameters == {} then count == 0 else count in parameters)
  }

  method Arity(parameters: set<nat>) returns (count: nat)
    ensures IsArity(count, parameters)
  {
    count := 0;
    var todo := parameters;
    while todo != {}
      invariant todo <= parameters
      invariant forall number :: number in parameters ==> number in todo || number <= count
      invariant if parameters == todo then count == 0 else count in parameters
      decreases todo
    {
      var number :| number in todo;
      if number > count || todo == parameters {
        count := number;
      }
      todo := todo - {number};
    }
  }

  method Analyze(statement: Statement) returns (result: Option<Analysis>, parameterCount: nat)
    requires WellAddressedStatement(statement)
    ensures result.Some? <==>
      Supported(statement.kind) && StatementMeaning(statement, {}, LastDefinition).malformed == {}
    ensures result.Some? ==>
      && result.value == AnalysisOf(StatementMeaning(statement, {}, LastDefinition))
      && IsArity(parameterCount, StatementMeaning(statement, {}, LastDefinition).parameters)
  {
    if statement.kind.OtherStatement? {
      return None, 0;
    }
    var visitor := new SqlAuthorityVisitor();
    visitor.VisitStatement(statement);
    if visitor.invalidParameter.Some? {
      return None, 0;
    }
    ghost var meaning := StatementMeaning(statement, {}, LastDefinition);
    var relations := set relation | relation in visitor.relations
                     && (relation !in visitor.routines || relation in visitor.explicitTables);
    assert relations == AnalysisOf(meaning).relations;
    assert visitor.parameters == meaning.parameters;
    parameterCount := Arity(visitor.parameters);
    return Some(Analysis(relations, visitor.routines, visitor.actions)), parameterCount;
  }

  /** What each kind of statement writes, runs and does, wherever it stands in the tree. */
  lemma StatementActs(statement: Statement, visible: set<string>, scoping: Scoping)
    ensures var m := StatementMeaning(statement, visible, scoping);
      match statement.kind
      case QueryStatement => Select in m.actions
      case InsertStatement(into, onConflict) =>
        && (if onConflict then Upsert in m.actions else Insert in m.actions)
        && (into.Some? ==> NormalizeName(into.value) in m.targets)
      case UpdateStatement(table) => Update in m.actions && (table.Some? ==> NormalizeName(table.value) in m.targets)
      case DeleteStatement(from) =>
        Delete in m.actions
        && forall i :: 0 <= i < |from| && from[i].Some? ==> NormalizeName(from[i].value) in m.targets
      case CallStatement(routine) => Execute in m.actions && NormalizeName(routine) in m.routines
      case OtherStatement => true
  {
    match statement.kind
    case InsertStatement(into, _) => TargetsHave([into], 0);
    case UpdateStatement(table) => TargetsHave([table], 0);
    case DeleteStatement(from) =>
      forall i | 0 <= i < |from| && from[i].Some?
        ensures NormalizeName(from[i].value) in TargetNames(from)
      {
        TargetsHave(from, i);
      }
    case _ =>
  }

  lemma {:induction false} TargetsHave(tables: seq<Option<ObjectName>>, i: nat)
    requires i < |tables|
    ensures tables[i].Some? ==> NormalizeName(tables[i].value) in TargetNames(tables)
  {
    if i < |tables| - 1 {
      TargetsHave(tables[..|tables| - 1], i);
    }
  }

  /** A statement without nested parts does nothing else. */
  lemma BareStatementActs(kind: StatementKind, visible: set<string>, scoping: Scoping)
    ensures var m := StatementMeaning(Statement(kind, []), visible, scoping);
      && m.bases == {} && m.parameters == {} && m.malformed == {} && m.tables == {}
      && (kind.OtherStatement? ==> m == NOTHING) && (!kind.OtherStatement? ==> |m.actions| == 1)
      && (m.routines != {} ==> kind.CallStatement?)
      && (m.targets != {} ==> kind.InsertStatement? || kind.UpdateStatement? || kind.DeleteStatement?)
  {
  }

  /** A relation that is only ever a routine is dropped; one that is written or named as a table stays. */
  lemma RoutinesAreDropped(meaning: Meaning, name: string)
    ensures name in AnalysisOf(meaning).relations <==>
      && (name in meaning.bases || name in meaning.targets)
      && (name in meaning.routines ==> name in meaning.tables || name in meaning.targets)
  {
  }

  /**
   * The walk's result against the SQL scoping rule: nothing is missed whatever the
   * names, every written table survives the final filter, parameters do not depend on
   * names, and with plainly named clauses the result is exact.
   */
  lemma AnalysisMeetsScoping(statement: Statement)
    ensures var computed := AnalysisOf(StatementMeaning(statement, {}, LastDefinition));
            var exact := StatementMeaning(statement, {}, Lexical);
            && AnalysisOf(exact).relations <= computed.relations
            && exact.targets <= computed.relations
            && AnalysisOf(exact).(relations := {}) == computed.(relations := {})
            && exact.(bases := {}) == StatementMeaning(statement, {}, LastDefinition).(bases := {})
            && (PlainStatement(statement) ==> computed == AnalysisOf(exact))
  {
    StatementOverReports(statement, {}, {});
    if PlainStatement(statement) {
      StatementIsExact(statement, {});
    }
  }
}
