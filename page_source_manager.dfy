/**
 * PageSourceManager: the registry of connector page-source providers, keyed by catalog, and
 * the guards createPageSource applies before handing a split to the catalog's provider.
 */
module PageSourceManagers {
  import opened Wrappers
  import opened Exceptions

  type CatalogName = string

  /** A connector's page-source provider, known by its identity. */
  datatype Provider = Provider(id: string)

  type Providers = map<CatalogName, Provider>

  /**
   * A TupleDomain: `None` domains is the contradiction ("none"), which no row satisfies; an
   * empty map is "all".
   */
  datatype TupleDomain = TupleDomain(domains: Option<map<string, string>>)

  predicate IsNone(d: TupleDomain)
  {
    d.domains.None?
  }

  /** A dynamic filter, known by its identity and its current predicate. */
  datatype DynamicFilter = DynamicFilter(id: string, currentPredicate: TupleDomain)

  /** DynamicFilter.EMPTY: the filter that constrains nothing. */
  const EMPTY: DynamicFilter := DynamicFilter("EMPTY", TupleDomain(Some(map[])))

  datatype Session = Session(queryId: string, allowPushdownIntoConnectors: bool)

  datatype ConnectorSession = ConnectorSession(queryId: string, catalogName: CatalogName)

  datatype Split = Split(catalogName: CatalogName, connectorSplit: string)

  datatype TableHandle = TableHandle(catalogName: CatalogName, connectorHandle: string, transaction: string)

  /** The page source createPageSource returns. */
  datatype PageSource =
    | EmptyPageSource
      /** The provider's page source, made from exactly these arguments. */
    | ProviderPageSource(provider: Provider, transaction: string, session: ConnectorSession, split: string,
                         table: string, columns: seq<string>, dynamicFilter: DynamicFilter)

  function AlreadyRegistered(catalogName: CatalogName): Exception
  {
    IllegalState("PageSourceProvider for connector '" + catalogName + "' is already registered")
  }

  /**
   * addConnectorPageSourceProvider: the put happens first, and only then is its previous value
   * checked, so a second registration fails after replacing the first provider.
   */
  function Register(providers: Providers, catalogName: CatalogName, provider: Provider)
    : (r: (Providers, Result<(), Exception>))
    ensures r.0.Keys == providers.Keys + {catalogName} && r.0[catalogName] == provider
    ensures forall c :: c in providers && c != catalogName ==> r.0[c] == providers[c]
    ensures r.1.Ok? <==> catalogName !in providers
    ensures r.1.Err? ==> r.1.error == AlreadyRegistered(catalogName)
  {
    var previous := if catalogName in providers then Some(providers[catalogName]) else None;
    (providers[catalogName := provider], if previous.None? then Ok(()) else Err(AlreadyRegistered(catalogName)))
  }

  /** removeConnectorPageSourceProvider. */
  function Unregister(providers: Providers, catalogName: CatalogName): (r: Providers)
    ensures r.Keys == providers.Keys - {catalogName}
    ensures forall c :: c in r ==> r[c] == providers[c]
  {
    providers - {catalogName}
  }

  /** getPageSourceProvider. */
  function ProviderFor(providers: Providers, catalogName: CatalogName): (r: Result<Provider, Exception>)
    ensures r.Ok? <==> catalogName in providers
    ensures r.Ok? ==> r.value == providers[catalogName]
    ensures r.Err? ==> r.error == IllegalArgument("No page source provider for connector: " + catalogName)
  {
    if catalogName in providers then Ok(providers[catalogName])
    else Err(IllegalArgument("No page source provider for connector: " + catalogName))
  }

  /** createPageSource: the guards, in order, then the call it makes on the provider. */
  function PageSourceFor(providers: Providers, session: Session, split: Split, table: TableHandle,
                         columns: seq<string>, dynamicFilter: DynamicFilter): (r: Result<PageSource, Exception>)
    ensures split.catalogName != table.catalogName ==> r == Err(IllegalArgument("mismatched split and table"))
    ensures r.Ok? ==> split.catalogName == table.catalogName && split.catalogName in providers
    ensures r.Ok? && r.value.ProviderPageSource? ==>
      && r.value.provider == providers[split.catalogName]
      && r.value.session == ConnectorSession(session.queryId, split.catalogName)
      && r.value.split == split.connectorSplit && r.value.table == table.connectorHandle
      && r.value.transaction == table.transaction && r.value.columns == columns
  {
    if split.catalogName != table.catalogName then Err(IllegalArgument("mismatched split and table"))
    else
      var catalogName := split.catalogName;
      match ProviderFor(providers, catalogName)
      case Err(e) => Err(e)
      case Ok(provider) =>
        var constraint := dynamicFilter.currentPredicate;
        if IsNone(constraint) then Ok(EmptyPageSource)
        else
          var filter := if !session.allowPushdownIntoConnectors then EMPTY else dynamicFilter;
          Ok(ProviderPageSource(provider, table.transaction, ConnectorSession(session.queryId, catalogName),
                                split.connectorSplit, table.connectorHandle, columns, filter))
  }

  /** Registering a catalog twice fails, and the second provider is the one left registered. */
  lemma SecondRegistrationReplacesThenFails(providers: Providers, catalogName: CatalogName, first: Provider, second: Provider)
    ensures var (p1, r1) := Register(providers, catalogName, first);
            var (p2, r2) := Register(p1, catalogName, second);
            r2 == Err(AlreadyRegistered(catalogName)) && ProviderFor(p2, catalogName) == Ok(second)
  {
  }

  /** Removing a catalog forgets its provider and keeps every other one. */
  lemma UnregisterOnlyThatCatalog(providers: Providers, catalogName: CatalogName, other: CatalogName)
    requires other != catalogName
    ensures ProviderFor(Unregister(providers, catalogName), catalogName).Err?
    ensures ProviderFor(Unregister(providers, catalogName), other) == ProviderFor(providers, other)
  {
  }

  /** After a registration and a removal of the same catalog, a new registration succeeds. */
  lemma RegisterAfterUnregister(providers: Providers, catalogName: CatalogName, provider: Provider)
    ensures Register(Unregister(providers, catalogName), catalogName, provider).1 == Ok(())
  {
  }

  /** A missing provider fails the call even when the constraint is "none": it is checked first. */
  lemma MissingProviderCheckedBeforeConstraint(providers: Providers, session: Session, split: Split, table: TableHandle,
                                               columns: seq<string>, dynamicFilter: DynamicFilter)
    requires split.catalogName == table.catalogName && split.catalogName !in providers
    ensures PageSourceFor(providers, session, split, table, columns, dynamicFilter)
         == Err(IllegalArgument("No page source provider for connector: " + split.catalogName))
  {
  }

  /** With a registered provider, a "none" constraint gives the empty page source and never reaches the provider. */
  lemma NoneConstraintGivesEmptySource(providers: Providers, session: Session, split: Split, table: TableHandle,
                                       columns: seq<string>, dynamicFilter: DynamicFilter)
    requires split.catalogName == table.catalogName && split.catalogName in providers
    ensures var r := PageSourceFor(providers, session, split, table, columns, dynamicFilter);
      r.Ok? && (r.value == EmptyPageSource <==> IsNone(dynamicFilter.currentPredicate))
  {
  }

  /** The provider sees the query's dynamic filter only when pushdown is allowed; otherwise EMPTY. */
  lemma DynamicFilterPassedOnlyWithPushdown(providers: Providers, session: Session, split: Split, table: TableHandle,
                                            columns: seq<string>, dynamicFilter: DynamicFilter)
    requires split.catalogName == table.catalogName && split.catalogName in providers
    requires !IsNone(dynamicFilter.currentPredicate)
    ensures var r := PageSourceFor(providers, session, split, table, columns, dynamicFilter);
      r.Ok? && r.value.ProviderPageSource?
      && r.value.dynamicFilter == (if session.allowPushdownIntoConnectors then dynamicFilter else EMPTY)
  {
  }

  class PageSourceManager {
    var pageSourceProviders: Providers

    constructor()
      ensures pageSourceProviders == map[]
    {
      pageSourceProviders := map[];
    }

    method AddConnectorPageSourceProvider(catalogName: CatalogName, pageSourceProvider: Provider)
      returns (r: Result<(), Exception>)
      modifies this
      ensures (pageSourceProviders, r) == Register(old(pageSourceProviders), catalogName, pageSourceProvider)
    {
      var previous := if catalogName in pageSourceProviders then Some(pageSourceProviders[catalogName]) else None;
      pageSourceProviders := pageSourceProviders[catalogName := pageSourceProvider];
      if previous.Some? {
        return Err(AlreadyRegistered(catalogName));
      }
      r := Ok(());
    }

    method RemoveConnectorPageSourceProvider(catalogName: CatalogName)
      modifies this
      ensures pageSourceProviders == Unregister(old(pageSourceProviders), catalogName)
    {
      pageSourceProviders := pageSourceProviders - {catalogName};
    }

    method CreatePageSource(session: Session, split: Split, table: TableHandle, columns: seq<string>,
                            dynamicFilter: DynamicFilter) returns (r: Result<PageSource, Exception>)
      ensures r == PageSourceFor(pageSourceProviders, session, split, table, columns, dynamicFilter)
    {
      if split.catalogName != table.catalogName {
        return Err(IllegalArgument("mismatched split and table"));
      }
      var catalogName := split.catalogName;
      var provider := GetPageSourceProvider(catalogName);
      if provider.Err? {
        return Err(provider.error);
      }
      var constraint := dynamicFilter.currentPredicate;
      if IsNone(constraint) {
        return Ok(EmptyPageSource);
      }
      var filter := dynamicFilter;
      if !session.allowPushdownIntoConnectors {
        filter := EMPTY;
      }
      r := Ok(ProviderPageSource(provider.value, table.transaction, ConnectorSession(session.queryId, catalogName),
                                 split.connectorSplit, table.connectorHandle, columns, filter));
    }

    method GetPageSourceProvider(catalogName: CatalogName) returns (r: Result<Provider, Exception>)
      ensures r == ProviderFor(pageSourceProviders, catalogName)
    {
      if catalogName !in pageSourceProviders {
        return Err(IllegalArgument("No page source provider for connector: " + catalogName));
      }
      r := Ok(pageSourceProviders[catalogName]);
    }
  }
}
