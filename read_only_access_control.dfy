/**
 * ReadOnlyAccessControl: the connector access control that lets a user look at and read
 * everything while refusing every change to data, metadata and grants.  Each check either
 * returns (allows) or throws an AccessDeniedException (denies); each filter returns its input.
 */
module ReadOnlyAccessControls {
  import opened Wrappers
  import opened Exceptions

  /** A schema-qualified table or view name; its text is "schema.table". */
  datatype SchemaTableName = SchemaTableName(schemaName: string, tableName: string)

  function NameText(t: SchemaTableName): (s: string)
    ensures |s| == |t.schemaName| + 1 + |t.tableName| && s[|t.schemaName|] == '.'
  {
    t.schemaName + "." + t.tableName
  }

  datatype Privilege = Create | Select | Delete | Insert | Update

  /** Privilege.name(). */
  function PrivilegeName(p: Privilege): string
  {
    match p
    case Create => "CREATE"
    case Select => "SELECT"
    case Delete => "DELETE"
    case Insert => "INSERT"
    case Update => "UPDATE"
  }

  datatype PrincipalType = User | Role

  datatype Principal = Principal(principalType: PrincipalType, name: string)

  /** The identity a check is made for; a read-only control never looks at it. */
  datatype SecurityContext = SecurityContext(user: string, queryId: string)

  /** One request per check method; the arguments are those the method receives. */
  datatype Request =
    | ShowSchemas
    | ShowCreateSchema(schemaName: string)
    | ShowCreateTable(table: SchemaTableName)
    | AddColumn(table: SchemaTableName)
    | DropColumn(table: SchemaTableName)
    | CreateTable(table: SchemaTableName)
    | CreateTableWithProperties(table: SchemaTableName, properties: map<string, string>)
    | DropTable(table: SchemaTableName)
    | RenameTable(table: SchemaTableName, newTable: SchemaTableName)
    | SetTableProperties(table: SchemaTableName, properties: map<string, string>)
    | SetTableComment(table: SchemaTableName)
    | ShowTables(schemaName: string)
    | SetColumnComment(table: SchemaTableName)
    | ShowColumns(table: SchemaTableName)
    | RenameColumn(table: SchemaTableName)
    | SelectFromColumns(table: SchemaTableName, columnNames: set<string>)
    | InsertIntoTable(table: SchemaTableName)
    | DeleteFromTable(table: SchemaTableName)
    | UpdateTableColumns(table: SchemaTableName, updatedColumns: set<string>)
    | CreateView(table: SchemaTableName)
    | RenameView(table: SchemaTableName, newTable: SchemaTableName)
    | DropView(table: SchemaTableName)
    | CreateViewWithSelectFromColumns(table: SchemaTableName, columnNames: set<string>)
    | CreateMaterializedView(table: SchemaTableName)
    | RefreshMaterializedView(table: SchemaTableName)
    | DropMaterializedView(table: SchemaTableName)
    | RenameMaterializedView(table: SchemaTableName, newTable: SchemaTableName)
    | SetCatalogSessionProperty(propertyName: string)
    | GrantTablePrivilege(privilege: Privilege, table: SchemaTableName, grantee: Principal, grantOption: bool)
    | RevokeTablePrivilege(privilege: Privilege, table: SchemaTableName, revokee: Principal, grantOption: bool)
    | ShowRoleAuthorizationDescriptors
    | ShowRoles
    | ShowCurrentRoles
    | ShowRoleGrants

  /** What a request is about, independently of how the control decides it. */
  datatype Category =
    | Listing        // show schemas, tables, columns, create statements, roles
    | Reading        // select, and the select a view definition performs
    | Session        // setting a catalog session property
    | TableDdl       // creating, dropping, renaming, commenting or altering a table or its columns
    | DataChange     // insert, delete, update
    | ViewDdl        // creating, renaming, dropping or refreshing a view or materialized view
    | GrantChange    // granting or revoking a privilege

  function CategoryOf(r: Request): Category
  {
    match r
    case ShowSchemas | ShowCreateSchema(_) | ShowCreateTable(_) | ShowTables(_) | ShowColumns(_)
      | ShowRoleAuthorizationDescriptors | ShowRoles | ShowCurrentRoles | ShowRoleGrants => Listing
    case SelectFromColumns(_, _) | CreateViewWithSelectFromColumns(_, _) => Reading
    case SetCatalogSessionProperty(_) => Session
    case AddColumn(_) | DropColumn(_) | CreateTable(_) | CreateTableWithProperties(_, _) | DropTable(_)
      | RenameTable(_, _) | SetTableProperties(_, _) | SetTableComment(_) | SetColumnComment(_)
      | RenameColumn(_) => TableDdl
    case InsertIntoTable(_) | DeleteFromTable(_) | UpdateTableColumns(_, _) => DataChange
    case CreateView(_) | RenameView(_, _) | DropView(_) | CreateMaterializedView(_)
      | RefreshMaterializedView(_) | DropMaterializedView(_) | RenameMaterializedView(_, _) => ViewDdl
    case GrantTablePrivilege(_, _, _, _) | RevokeTablePrivilege(_, _, _, _) => GrantChange
  }

  /** A request whose category would change data, metadata or grants. */
  predicate Changes(r: Request)
  {
    match CategoryOf(r)
    case TableDdl | DataChange | ViewDdl | GrantChange => true
    case Listing | Reading | Session => false
  }

  /** The names a denial carries: the table or view, then the new name of a rename. */
  function DeniedObjects(r: Request): seq<string>
    requires Changes(r)
  {
    match r
    case RenameTable(t, n) => [NameText(t), NameText(n)]
    case RenameView(t, n) => [NameText(t), NameText(n)]
    case RenameMaterializedView(t, n) => [NameText(t), NameText(n)]
    case GrantTablePrivilege(p, t, _, _) => [PrivilegeName(p), NameText(t)]
    case RevokeTablePrivilege(p, t, _, _) => [PrivilegeName(p), NameText(t)]
    case AddColumn(t) => [NameText(t)]
    case DropColumn(t) => [NameText(t)]
    case CreateTable(t) => [NameText(t)]
    case CreateTableWithProperties(t, _) => [NameText(t)]
    case DropTable(t) => [NameText(t)]
    case SetTableProperties(t, _) => [NameText(t)]
    case SetTableComment(t) => [NameText(t)]
    case SetColumnComment(t) => [NameText(t)]
    case RenameColumn(t) => [NameText(t)]
    case InsertIntoTable(t) => [NameText(t)]
    case DeleteFromTable(t) => [NameText(t)]
    case UpdateTableColumns(t, _) => [NameText(t)]
    case CreateView(t) => [NameText(t)]
    case DropView(t) => [NameText(t)]
    case CreateMaterializedView(t) => [NameText(t)]
    case RefreshMaterializedView(t) => [NameText(t)]
    case DropMaterializedView(t) => [NameText(t)]
  }

  function Deny(operation: string, objects: seq<string>): Result<(), Exception>
  {
    Err(AccessDenied(operation, objects, {}))
  }

  /** Every checkCan* method: return normally (Ok) or throw the deny method's exception. */
  function CheckCan(context: SecurityContext, request: Request): (r: Result<(), Exception>)
    ensures r.Err? ==> r.error.AccessDenied?
  {
    match request
    case ShowSchemas => Ok(())
    case ShowCreateSchema(_) => Ok(())
    case ShowCreateTable(_) => Ok(())
    case AddColumn(t) => Deny("AddColumn", [NameText(t)])
    case DropColumn(t) => Deny("DropColumn", [NameText(t)])
    case CreateTable(t) => Deny("CreateTable", [NameText(t)])
    case CreateTableWithProperties(t, _) => Deny("CreateTable", [NameText(t)])
    case DropTable(t) => Deny("DropTable", [NameText(t)])
    case RenameTable(t, n) => Deny("RenameTable", [NameText(t), NameText(n)])
    case SetTableProperties(t, _) => Deny("SetTableProperties", [NameText(t)])
    case SetTableComment(t) => Deny("CommentTable", [NameText(t)])
    case ShowTables(_) => Ok(())
    case SetColumnComment(t) => Deny("CommentColumn", [NameText(t)])
    case ShowColumns(_) => Ok(())
    case RenameColumn(t) => Deny("RenameColumn", [NameText(t)])
    case SelectFromColumns(_, _) => Ok(())
    case InsertIntoTable(t) => Deny("InsertTable", [NameText(t)])
    case DeleteFromTable(t) => Deny("DeleteTable", [NameText(t)])
    case UpdateTableColumns(t, columns) => Err(AccessDenied("UpdateTableColumns", [NameText(t)], columns))
    case CreateView(t) => Deny("CreateView", [NameText(t)])
    case RenameView(t, n) => Deny("RenameView", [NameText(t), NameText(n)])
    case DropView(t) => Deny("DropView", [NameText(t)])
    case CreateViewWithSelectFromColumns(_, _) => Ok(())
    case CreateMaterializedView(t) => Deny("CreateMaterializedView", [NameText(t)])
    case RefreshMaterializedView(t) => Deny("RefreshMaterializedView", [NameText(t)])
    case DropMaterializedView(t) => Deny("DropMaterializedView", [NameText(t)])
    case RenameMaterializedView(t, n) => Deny("RenameMaterializedView", [NameText(t), NameText(n)])
    case SetCatalogSessionProperty(_) => Ok(())
    case GrantTablePrivilege(p, t, _, _) => Deny("GrantTablePrivilege", [PrivilegeName(p), NameText(t)])
    case RevokeTablePrivilege(p, t, _, _) => Deny("RevokeTablePrivilege", [PrivilegeName(p), NameText(t)])
    case ShowRoleAuthorizationDescriptors => Ok(())
    case ShowRoles => Ok(())
    case ShowCurrentRoles => Ok(())
    case ShowRoleGrants => Ok(())
  }

  /** Listing schemas, tables, columns, create statements and roles is allowed. */
  lemma ListingAllowed(context: SecurityContext, request: Request)
    requires CategoryOf(request) == Listing
    ensures CheckCan(context, request).Ok?
  {
  }

  /** Selecting, directly or through a new view's definition, is allowed. */
  lemma ReadingAllowed(context: SecurityContext, request: Request)
    requires CategoryOf(request) == Reading
    ensures CheckCan(context, request).Ok?
  {
  }

  /** Setting a catalog session property is allowed. */
  lemma SessionAllowed(context: SecurityContext, request: Request)
    requires CategoryOf(request) == Session
    ensures CheckCan(context, request).Ok?
  {
  }

  /** Every table and column change is denied. */
  lemma TableDdlDenied(context: SecurityContext, request: Request)
    requires CategoryOf(request) == TableDdl
    ensures var r := CheckCan(context, request);
      r.Err? && r.error == AccessDenied(r.error.operation, DeniedObjects(request), {})
  {
  }

  /** Insert, delete and update are denied. */
  lemma DataChangeDenied(context: SecurityContext, request: Request)
    requires CategoryOf(request) == DataChange
    ensures var r := CheckCan(context, request);
      r.Err? && r.error.AccessDenied? && r.error.objects == DeniedObjects(request)
      && r.error.columns == (if request.UpdateTableColumns? then request.updatedColumns else {})
  {
  }

  /** Creating, renaming, dropping and refreshing views and materialized views is denied. */
  lemma ViewDdlDenied(context: SecurityContext, request: Request)
    requires CategoryOf(request) == ViewDdl
    ensures var r := CheckCan(context, request);
      r.Err? && r.error == AccessDenied(r.error.operation, DeniedObjects(request), {})
  {
  }

  /** Granting and revoking privileges is denied. */
  lemma GrantChangeDenied(context: SecurityContext, request: Request)
    requires CategoryOf(request) == GrantChange
    ensures var r := CheckCan(context, request);
      r.Err? && r.error == AccessDenied(r.error.operation, DeniedObjects(request), {})
  {
  }

  /** The table of decisions: every request that would change something is denied, and every other is allowed. */
  lemma ReadOnly(context: SecurityContext, request: Request)
    ensures CheckCan(context, request).Ok? <==> !Changes(request)
  {
    match CategoryOf(request)
    case Listing => ListingAllowed(context, request);
    case Reading => ReadingAllowed(context, request);
    case Session => SessionAllowed(context, request);
    case TableDdl => TableDdlDenied(context, request);
    case DataChange => DataChangeDenied(context, request);
    case ViewDdl => ViewDdlDenied(context, request);
    case GrantChange => GrantChangeDenied(context, request);
  }

  /**
   * A denial names the table or view (and a rename's new name, or a grant's privilege), and
   * only an update names columns: the updated ones.
   */
  lemma DenialNamesObjects(context: SecurityContext, request: Request)
    requires Changes(request)
    ensures var r := CheckCan(context, request);
      && r.Err? && r.error.AccessDenied? && r.error.objects == DeniedObjects(request)
      && r.error.columns == (if request.UpdateTableColumns? then request.updatedColumns else {})
  {
    match CategoryOf(request)
    case TableDdl => TableDdlDenied(context, request);
    case DataChange => DataChangeDenied(context, request);
    case ViewDdl => ViewDdlDenied(context, request);
    case GrantChange => GrantChangeDenied(context, request);
  }

  /** filterSchemas: every schema stays visible. */
  function FilterSchemas(context: SecurityContext, schemaNames: set<string>): (r: set<string>)
    ensures forall s :: s in r <==> s in schemaNames
  {
    schemaNames
  }

  /** filterTables: every table stays visible. */
  function FilterTables(context: SecurityContext, tableNames: set<SchemaTableName>): (r: set<SchemaTableName>)
    ensures forall t :: t in r <==> t in tableNames
  {
    tableNames
  }

  /** filterColumns: every column of the table stays visible. */
  function FilterColumns(context: SecurityContext, table: SchemaTableName, columns: set<string>): (r: set<string>)
    ensures forall c :: c in r <==> c in columns
  {
    columns
  }

  /** The decision depends on the request alone, never on who asks. */
  lemma DecisionIgnoresIdentity(a: SecurityContext, b: SecurityContext, request: Request)
    ensures CheckCan(a, request) == CheckCan(b, request)
  {
  }

  /** Reading a table through a new view is allowed although creating the view is not. */
  lemma ViewWithSelectAllowedViewDenied(context: SecurityContext, table: SchemaTableName, view: SchemaTableName,
                                        columns: set<string>)
    ensures CheckCan(context, CreateViewWithSelectFromColumns(table, columns)).Ok?
    ensures CheckCan(context, CreateView(view)) == Err(AccessDenied("CreateView", [NameText(view)], {}))
  {
  }

  /** Granting and revoking are refused for every privilege, grantee and grant option. */
  lemma GrantsDenied(context: SecurityContext, p: Privilege, t: SchemaTableName, who: Principal, option: bool)
    ensures CheckCan(context, GrantTablePrivilege(p, t, who, option))
         == Err(AccessDenied("GrantTablePrivilege", [PrivilegeName(p), NameText(t)], {}))
    ensures CheckCan(context, RevokeTablePrivilege(p, t, who, option))
         == Err(AccessDenied("RevokeTablePrivilege", [PrivilegeName(p), NameText(t)], {}))
  {
  }

  /** A filter followed by the checks a listing needs: whatever is listed may be shown. */
  lemma FilteredTablesMayBeShown(context: SecurityContext, tableNames: set<SchemaTableName>, t: SchemaTableName)
    requires t in FilterTables(context, tableNames)
    ensures t in tableNames
    ensures CheckCan(context, ShowColumns(t)).Ok? && CheckCan(context, ShowCreateTable(t)).Ok?
    ensures forall columns :: CheckCan(context, SelectFromColumns(t, columns)).Ok?
  {
  }
}
