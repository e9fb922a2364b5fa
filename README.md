# trino-deploy core, modelled in Dafny

This project models the core of trino-deploy, a fork of the Trino SQL engine, and proves
properties of that model.  It has four parts.

- **The columnar block model of the SPI.**
  - `Blocks` defines one `Block` datatype with three cases:
    - a leaf, which carries an abstract byte size per position;
    - a `DictionaryBlock`, with ids, an ids offset and a dictionary;
    - an `AbstractArrayBlock`, with offsets, an offset base, an optional null array and a raw element block.
  - `BlockOps` holds the structural operations of both block kinds: getId, isNull, getRegion, copyRegion, copyPositions, getObject, getSingleValueBlock, compact and unnest.
  - `BlockSizes` holds their size accounting.
  - `DictionaryBlocks.DictionaryBlock` is a class whose lazily filled statistics fields (sizeInBytes, uniqueIds, isSequentialIds, logicalSizeInBytes) follow DictionaryBlock's one-shot memo. Its loops (calculateCompactSize, compact, unnest, copyPositions) are methods proved against the value model.
  - `ArrayBlocks` holds the loops of AbstractArrayBlock: copyPositions, getPositionsSizeInBytes and getEstimatedDataSizeForStats.
  - `BlockEncodingManagers.BlockEncodingManager` is the registry of block encodings by name.
- **Type rules.**
  - `TypeCoercions` covers the common-supertype rules for decimal, varchar and char, `compatibility`, `coerceTypeBase`, `isTypeOnlyCoercion` and `canCoerce`. The class `TypeCoercion` carries the mutable `isComparableOperator` flag.
  - `TypeSignatureParameters` is the tagged union of type parameters.
  - `CharTypes`, `SmallintTypes`, `ShortDecimalTypes` and `IpAddressTypes` are the range checks and comparison operators of those types. Java's 16- and 64-bit integers and their truncations are written out in `JavaInts`.
- **Text encoders, decoders and parsers.**
  - `ExpressionFormatters`: SQL string literals (plain and U&'…'), identifiers, and the text of expressions, including function calls with their optional clauses, LISTAGG and window frame bounds.
  - `RowFieldNames` and `NodeLocations`.
  - `ResolvedFunctions`: the "@name@payload" layout of a resolved function's qualified name.
  - `VarcharOperators`: the varchar to boolean cast.
  - `DateTimeUtils`: the interval qualifier rules, period sign handling and the best-match choice of OrderedPeriodParser.
  - `FixJsonDataUtils`: the type-directed fixing of client JSON data.
- **Registries, policy, scheduling and a toy code generator.**
  - `PageSourceManagers`: the provider map and the guards of createPageSource.
  - `ReadOnlyAccessControls`: the allow/deny table.
  - `FixedSourcePartitionedSchedulers`: the constructor's checks, the lifespan and batch arithmetic, close, and the AsGroupedSourceScheduler state machine. The inner source schedulers are abstract; the model records the calls made on them.
  - `CalculatorNodes`: type inference and code emission of the calculator's AST nodes, with AbstractNode's type memo as a class.

Java exceptions are the `Exceptions.Exception` datatype, and a Java call that may throw
returns a `Wrappers.Result`.  Some code the shown code calls is not part of this model.  It
becomes either a parameter of the operation that calls it or a field of an abstract value:

- Joda's period sub-parsers, as a parameter;
- IntervalDayTime.toMillis and IntervalYearMonth.toMonths, as parameters that may fail;
- Slice.toStringUtf8 in the varchar to boolean cast's error message, as a parameter;
- SqlFormatter.formatName, the sort item printer and formatWindow, as text carried by a function call;
- base32hex decoding, decompression and JSON decoding of a resolved function's payload, as a parameter;
- java.util.Base64, as a parameter;
- a type signature's text, `jsonValue` and `isCalculated`, as fields of the `TypeSignature` value;
- a block encoding's implementation, as an identity in the `BlockEncoding` value.

## Model

| member | source | states |
|---|---|---|
| SmallintTypes.FixedSize | trino-deploy-spi/src/main/java/io/trino/spi/type/SmallintType.java:44-47 | a SMALLINT value occupies 16 bits (Short.BYTES) |
| SmallintTypes.GetRange | trino-deploy-spi/src/main/java/io/trino/spi/type/SmallintType.java:105-108 | the range is [Short.MIN_VALUE, Short.MAX_VALUE], and a long lies in it exactly when writeLong accepts it |
| SmallintTypes.WriteLong | trino-deploy-spi/src/main/java/io/trino/spi/type/SmallintType.java:128-137 | a value is stored unchanged exactly when it fits in a short; above the range it fails with GENERIC_INTERNAL_ERROR "exceeds MAX_SHORT", below it with "is less than MIN_SHORT" |
| SmallintTypes.GetLong | trino-deploy-spi/src/main/java/io/trino/spi/type/SmallintType.java:122-125 | the widened stored short is a value writeLong stores back as the same short (read after write is the identity) |
| SmallintTypes.ComparisonOperator | trino-deploy-spi/src/main/java/io/trino/spi/type/SmallintType.java:172-175 | Short.compare of the two casts lies within ±65535 |
| SmallintTypes.OperatorsAgreeWithComparison | trino-deploy-spi/src/main/java/io/trino/spi/type/SmallintType.java:171-187 | lessThan and lessThanOrEqual agree with the sign of the comparison, and a zero comparison means the two casts to short are equal |
| SmallintTypes.ComparisonAntisymmetric | trino-deploy-spi/src/main/java/io/trino/spi/type/SmallintType.java:172-175 | swapping the operands negates the comparison |
| SmallintTypes.ComparisonIgnoresHighBits | trino-deploy-spi/src/main/java/io/trino/spi/type/SmallintType.java:172-187 | because of the cast to short, adding 65536 to an operand does not change the comparison |
| SmallintTypes.EqualAgreesWithComparisonInRange | trino-deploy-spi/src/main/java/io/trino/spi/type/SmallintType.java:154-175 | on values writeLong accepts, equalOperator holds exactly when the comparison is zero |
| SmallintTypes.EqualDisagreesOutOfRange | trino-deploy-spi/src/main/java/io/trino/spi/type/SmallintType.java:154-175 | outside that range the two differ: 65536 and 0 are unequal but compare as zero |
| SmallintTypes.EqualOperator | trino-deploy-spi/src/main/java/io/trino/spi/type/SmallintType.java:153-157 | equal stored longs have equal short casts, and on SMALLINT values equality is exactly equality of the casts; EqualDisagreesOutOfRange shows the two part outside the range |
| SmallintTypes.LessThanOperator | trino-deploy-spi/src/main/java/io/trino/spi/type/SmallintType.java:177-181 | on SMALLINT values it is the order of the longs, and it never holds for equal longs; OperatorsAgreeWithComparison proves it is a negative comparison |
| SmallintTypes.LessThanOrEqualOperator | trino-deploy-spi/src/main/java/io/trino/spi/type/SmallintType.java:183-187 | it is less-than or equal short casts, and on SMALLINT values it is the order of the longs; OperatorsAgreeWithComparison proves it is a non-positive comparison |
| ShortDecimalTypes.Create | trino-deploy-spi/src/main/java/io/trino/spi/type/ShortDecimalType.java:33-38 | construction succeeds exactly when 0 < precision <= 18 and 0 <= scale <= precision, keeping both; the precision check comes first, each with its own message |
| ShortDecimalTypes.FixedSize | trino-deploy-spi/src/main/java/io/trino/spi/type/ShortDecimalType.java:47-50 | a short decimal occupies 64 bits (one long) |
| ShortDecimalTypes.ComparisonOperator | trino-deploy-spi/src/main/java/io/trino/spi/type/ShortDecimalType.java:112-134 | Long.compare of the unscaled values is -1, 0 or 1, and zero exactly when equalOperator holds |
| ShortDecimalTypes.OperatorsAgreeWithComparison | trino-deploy-spi/src/main/java/io/trino/spi/type/ShortDecimalType.java:130-146 | lessThan and lessThanOrEqual agree with the comparison's sign; the comparison is antisymmetric and transitive |
| ShortDecimalTypes.EqualOperator | trino-deploy-spi/src/main/java/io/trino/spi/type/ShortDecimalType.java:112-116 | holds exactly when Long.compare of the unscaled longs is 0 |
| ShortDecimalTypes.LessThanOperator | trino-deploy-spi/src/main/java/io/trino/spi/type/ShortDecimalType.java:136-140 | holds exactly when Long.compare of the unscaled longs is negative, and never for equal values |
| ShortDecimalTypes.LessThanOrEqualOperator | trino-deploy-spi/src/main/java/io/trino/spi/type/ShortDecimalType.java:142-146 | holds exactly when less-than or equal holds |
| CharTypes.CreateCharType | trino-deploy-spi/src/main/java/io/trino/spi/type/CharType.java:50-67 | a CHAR type exists exactly for lengths in [0, 65536], keeping the length; other lengths fail with INVALID_FUNCTION_ARGUMENT |
| CharTypes.PadSpaces | trino-deploy-spi/src/main/java/io/trino/spi/type/CharType.java:109 | padding keeps the value as a prefix, fills only spaces after it, and reaches the declared length (never shortens) |
| CharTypes.TrimTrailingSpaces | trino-deploy-spi/src/main/java/io/trino/spi/type/CharType.java:104-106 | the trimmed value is a prefix ending in a non-space (or empty), and everything removed was a space |
| CharTypes.GetObjectValue | trino-deploy-spi/src/main/java/io/trino/spi/type/CharType.java:93-110 | null stays null; a stored value is accepted exactly when it is no longer than the type and does not end in a space, and is then returned at the declared length; the rejection is an IllegalArgumentException |
| CharTypes.WriteSlice | trino-deploy-spi/src/main/java/io/trino/spi/type/CharType.java:149-156 | the region is written unchanged exactly when it does not end in a space; otherwise the trailing-spaces IllegalArgumentException |
| CharTypes.WriteWholeSlice | trino-deploy-spi/src/main/java/io/trino/spi/type/CharType.java:143-147 | the whole value is written unchanged exactly when it does not end in a space |
| CharTypes.WriteThenRead | trino-deploy-spi/src/main/java/io/trino/spi/type/CharType.java:93-156 | a value writeSlice accepts and that fits reads back as itself padded to the length, and trimming the padding recovers it |
| CharTypes.TrimPadded | trino-deploy-spi/src/main/java/io/trino/spi/type/CharType.java:104-109 | trimming undoes padding for any value without a trailing space |
| CharTypes.Equals | trino-deploy-spi/src/main/java/io/trino/spi/type/CharType.java:158-171 | two CHAR types are equal exactly when their lengths are |
| TypeSignatureParameters.NamedToString | trino-deploy-spi/src/main/java/io/trino/spi/type/NamedTypeSignature.java:56-63 | an anonymous field prints as its type; a named one as the quoted field name (quotes doubled), a space and the type |
| TypeSignatureParameters.ValueToString | trino-deploy-spi/src/main/java/io/trino/spi/type/TypeSignatureParameter.java:56-59 | a LONG parameter prints as a decimal text that parses back to its value |
| TypeSignatureParameters.TypeParameter | trino-deploy-spi/src/main/java/io/trino/spi/type/TypeSignatureParameter.java:19-22 | the factory makes a TYPE parameter whose getter gives back the signature |
| TypeSignatureParameters.NumericParameter | trino-deploy-spi/src/main/java/io/trino/spi/type/TypeSignatureParameter.java:24-27 | the factory makes a LONG parameter whose getter gives back the literal |
| TypeSignatureParameters.NamedTypeParameter | trino-deploy-spi/src/main/java/io/trino/spi/type/TypeSignatureParameter.java:29-32 | the factory makes a NAMED_TYPE parameter whose getter gives back the named signature |
| TypeSignatureParameters.NamedField | trino-deploy-spi/src/main/java/io/trino/spi/type/TypeSignatureParameter.java:34-37 | a named field is a NAMED_TYPE parameter carrying that field name and type |
| TypeSignatureParameters.AnonymousField | trino-deploy-spi/src/main/java/io/trino/spi/type/TypeSignatureParameter.java:39-42 | an anonymous field is a NAMED_TYPE parameter with no field name |
| TypeSignatureParameters.TypeVariable | trino-deploy-spi/src/main/java/io/trino/spi/type/TypeSignatureParameter.java:44-47 | the factory makes a VARIABLE parameter whose getter gives back the variable |
| TypeSignatureParameters.GetTypeSignature | trino-deploy-spi/src/main/java/io/trino/spi/type/TypeSignatureParameter.java:104-115 | succeeds exactly on TYPE parameters, returning the held value; otherwise the kind-mismatch IllegalArgumentException |
| TypeSignatureParameters.GetLongLiteral | trino-deploy-spi/src/main/java/io/trino/spi/type/TypeSignatureParameter.java:104-120 | succeeds exactly on LONG parameters, returning the held value; otherwise the kind-mismatch error |
| TypeSignatureParameters.GetNamedTypeSignature | trino-deploy-spi/src/main/java/io/trino/spi/type/TypeSignatureParameter.java:104-125 | succeeds exactly on NAMED_TYPE parameters, returning the held value; otherwise the kind-mismatch error |
| TypeSignatureParameters.GetVariable | trino-deploy-spi/src/main/java/io/trino/spi/type/TypeSignatureParameter.java:104-130 | succeeds exactly on VARIABLE parameters, returning the held value; otherwise the kind-mismatch error |
| TypeSignatureParameters.GetTypeSignatureOrNamedTypeSignature | trino-deploy-spi/src/main/java/io/trino/spi/type/TypeSignatureParameter.java:132-142 | present exactly for TYPE and NAMED_TYPE parameters: the signature itself, or the named field's signature |
| TypeSignatureParameters.IsCalculated | trino-deploy-spi/src/main/java/io/trino/spi/type/TypeSignatureParameter.java:144-157 | LONG is never calculated, VARIABLE always; TYPE and NAMED_TYPE take their signature's flag |
| TypeSignatureParameters.JsonValue | trino-deploy-spi/src/main/java/io/trino/spi/type/TypeSignatureParameter.java:61-77 | only VARIABLE parameters get the "@" prefix; a TYPE parameter uses its signature's JSON, the others their text form |
| TypeSignatureParameters.LongJsonValueRoundTrip | trino-deploy-spi/src/main/java/io/trino/spi/type/TypeSignatureParameter.java:61-77 | a long literal's JSON text parses back to the literal and does not start with "@", so it is never taken for a variable |
| TypeSignatureParameters.Equals | trino-deploy-spi/src/main/java/io/trino/spi/type/TypeSignatureParameter.java:159-173 | two parameters are equal exactly when their kinds and values are |
| RowFieldNames.Create | trino-deploy-spi/src/main/java/io/trino/spi/type/RowFieldName.java:16-19 | a field name exists exactly for a non-null name, which it keeps; null fails with "name is null" |
| RowFieldNames.ToString | trino-deploy-spi/src/main/java/io/trino/spi/type/RowFieldName.java:41-45 | the text is enclosed in double quotes, and a name without quotes appears verbatim between them |
| RowFieldNames.ParseToString | trino-deploy-spi/src/main/java/io/trino/spi/type/RowFieldName.java:41-45 | undoing the quoting (doubled quotes back to single) recovers the field name |
| RowFieldNames.ToStringInjective | trino-deploy-spi/src/main/java/io/trino/spi/type/RowFieldName.java:41-45 | distinct names never print the same |
| RowFieldNames.Equals | trino-deploy-spi/src/main/java/io/trino/spi/type/RowFieldName.java:26-39 | equality is equality of names, and equal names print alike |
| RowFieldNames.Parse | trino-deploy-spi/src/main/java/io/trino/spi/type/RowFieldName.java:41-45 | every text it accepts is the toString of the name it returns; ParseToString proves the other direction |
| Texts.QuotedUnquoted | trino-deploy-spi/src/main/java/io/trino/spi/type/RowFieldName.java:41-45 | every text Unquoted accepts is the quoting of what it returns, quotes doubled |
| VarcharOperators.ToUpperCase | trino-deploy-main/src/main/java/io/trino/type/VarcharOperators.java:67-75 | a byte a-z moves down by 32 into A-Z; every other byte is unchanged |
| VarcharOperators.CastToBoolean | trino-deploy-main/src/main/java/io/trino/type/VarcharOperators.java:38-65 | true exactly for a true spelling (one byte t/T/1, or "true" in any letter case), false exactly for a false spelling (f/F/0, or "false" in any case); anything else is INVALID_CAST_ARGUMENT "Cannot cast '…' to BOOLEAN" around the value's UTF-8 decoding |
| VarcharOperators.SpellingsMatchReference | trino-deploy-main/src/main/java/io/trino/type/VarcharOperators.java:40-63 | the byte-by-byte upper-case tests accept exactly the spellings of an independent lower-casing reference, and no text is both a true and a false spelling |
| VarcharOperators.CastToBinary | trino-deploy-main/src/main/java/io/trino/type/VarcharOperators.java:169-175 | the cast keeps every byte |
| NodeLocations.Create | trino-deploy-parser/src/main/java/io/trino/sql/tree/NodeLocation.java:18-25 | a location exists exactly when line >= 1 and column >= 1, keeping both; the line check comes first, each with its own message |
| NodeLocations.ToString | trino-deploy-parser/src/main/java/io/trino/sql/tree/NodeLocation.java:37-41 | the text holds a colon and otherwise only digits |
| NodeLocations.ParseToString | trino-deploy-parser/src/main/java/io/trino/sql/tree/NodeLocation.java:37-41 | reading "line:column" back gives the location |
| NodeLocations.ToStringInjective | trino-deploy-parser/src/main/java/io/trino/sql/tree/NodeLocation.java:37-41 | distinct locations never print the same |
| NodeLocations.Equals | trino-deploy-parser/src/main/java/io/trino/sql/tree/NodeLocation.java:43-55 | equality is same line and same column, and equal locations print alike |
| NodeLocations.Parse | trino-deploy-parser/src/main/java/io/trino/sql/tree/NodeLocation.java:37-41 | reading "line:column" back yields only locations the constructor accepts; ParseToString proves it inverts toString |
| ResolvedFunctions.Create | trino-deploy-main/src/main/java/io/trino/metadata/ResolvedFunction.java:56-73 | construction succeeds exactly when there is one nullability flag per argument type, and the function then holds exactly the seven given fields; otherwise the argument-count IllegalArgumentException |
| ResolvedFunctions.Equals | trino-deploy-main/src/main/java/io/trino/metadata/ResolvedFunction.java:148-164 | two functions are equal exactly when they agree on everything except nullability; equal values are always equal |
| ResolvedFunctions.EqualsIgnoresNullability | trino-deploy-main/src/main/java/io/trino/metadata/ResolvedFunction.java:148-164 | replacing the nullability keeps a function equal to itself even though the values differ |
| ResolvedFunctions.ExtractFunctionName | trino-deploy-main/src/main/java/io/trino/metadata/ResolvedFunction.java:137-146 | an unresolved name gives its last part unchanged; a resolved one succeeds exactly when "@" splits it into two pieces, giving the "@"-free text between them; otherwise the two-parts IllegalArgumentException |
| ResolvedFunctions.ToQualifiedName | trino-deploy-main/src/main/java/io/trino/metadata/ResolvedFunction.java:122-135 | the encoded name has one part and is resolved (starts with "@") |
| ResolvedFunctions.ExtractFunctionNameOfQualifiedName | trino-deploy-main/src/main/java/io/trino/metadata/ResolvedFunction.java:122-146 | extractFunctionName gives back the name toQualifiedName embedded, when that name holds no "@" |
| ResolvedFunctions.ExtractFunctionNameRejectsAt | trino-deploy-main/src/main/java/io/trino/metadata/ResolvedFunction.java:122-146 | a function name holding "@" does not survive the encoding: extracting it fails |
| ResolvedFunctions.FromQualifiedName | trino-deploy-main/src/main/java/io/trino/metadata/ResolvedFunction.java:193-215 | an unresolved name gives nothing; a function it returns was decoded from the upper-cased payload and its name matches the embedded one ignoring case; a malformed resolved name fails with the two-parts error |
| ResolvedFunctions.UpperLowerBase32Hex | trino-deploy-main/src/main/java/io/trino/metadata/ResolvedFunction.java:204-206 | upper-casing restores base32hex text after lower-casing and leaves it unchanged otherwise |
| ResolvedFunctions.FromQualifiedNameRoundTrip | trino-deploy-main/src/main/java/io/trino/metadata/ResolvedFunction.java:122-215 | decoding a function's qualified name gives the function back, also after the name has been lower-cased |
| ResolvedFunctions.Pieces | trino-deploy-main/src/main/java/io/trino/metadata/ResolvedFunction.java:137-146 | the resolved suffix after "@", split on "@": at least one piece and none containing "@" |
| PageSourceManagers.Register | trino-deploy-main/src/main/java/io/trino/split/PageSourceManager.java:37-42 | the catalog is mapped to the new provider and every other catalog keeps its own; the call succeeds exactly when the catalog was not yet registered, and otherwise fails after the replacement |
| PageSourceManagers.Unregister | trino-deploy-main/src/main/java/io/trino/split/PageSourceManager.java:44-47 | only that catalog is removed, and the others keep their providers |
| PageSourceManagers.ProviderFor | trino-deploy-main/src/main/java/io/trino/split/PageSourceManager.java:73-78 | succeeds exactly for a registered catalog, giving its provider; otherwise "No page source provider for connector" |
| PageSourceManagers.PageSourceFor | trino-deploy-main/src/main/java/io/trino/split/PageSourceManager.java:49-71 | mismatched split and table catalogs fail first; a success needs a registered provider, and a provider page source gets that catalog's provider, a session for the catalog and the split's, table's and transaction's handles with the columns |
| PageSourceManagers.SecondRegistrationReplacesThenFails | trino-deploy-main/src/main/java/io/trino/split/PageSourceManager.java:37-42 | registering a catalog twice fails, and the second provider is the one left registered |
| PageSourceManagers.UnregisterOnlyThatCatalog | trino-deploy-main/src/main/java/io/trino/split/PageSourceManager.java:44-47 | after removal the catalog has no provider and every other catalog's lookup is unchanged |
| PageSourceManagers.RegisterAfterUnregister | trino-deploy-main/src/main/java/io/trino/split/PageSourceManager.java:37-47 | after a removal the catalog can be registered again without error |
| PageSourceManagers.MissingProviderCheckedBeforeConstraint | trino-deploy-main/src/main/java/io/trino/split/PageSourceManager.java:53-60 | a missing provider fails the call even when the constraint is "none", because the lookup comes first |
| PageSourceManagers.NoneConstraintGivesEmptySource | trino-deploy-main/src/main/java/io/trino/split/PageSourceManager.java:57-60 | with a registered provider, the result is the empty page source exactly when the constraint is "none" |
| PageSourceManagers.DynamicFilterPassedOnlyWithPushdown | trino-deploy-main/src/main/java/io/trino/split/PageSourceManager.java:61-70 | the provider receives the query's dynamic filter only when pushdown into connectors is allowed, and EMPTY otherwise |
| PageSourceManagers.PageSourceManager.constructor | trino-deploy-main/src/main/java/io/trino/split/PageSourceManager.java:35 | a new manager has no providers |
| PageSourceManagers.PageSourceManager.AddConnectorPageSourceProvider | trino-deploy-main/src/main/java/io/trino/split/PageSourceManager.java:37-42 | the new map and the result are those of Register on the old map |
| PageSourceManagers.PageSourceManager.RemoveConnectorPageSourceProvider | trino-deploy-main/src/main/java/io/trino/split/PageSourceManager.java:44-47 | the new map is Unregister of the old one |
| PageSourceManagers.PageSourceManager.CreatePageSource | trino-deploy-main/src/main/java/io/trino/split/PageSourceManager.java:49-71 | the result is PageSourceFor on the current map, which is not changed |
| PageSourceManagers.PageSourceManager.GetPageSourceProvider | trino-deploy-main/src/main/java/io/trino/split/PageSourceManager.java:73-78 | the result is ProviderFor on the current map |
| BlockEncodingManagers.Lookup | trino-deploy-main/src/main/java/io/trino/metadata/BlockEncodingManager.java:48-53 | succeeds exactly for a registered name, giving an encoding of that name; otherwise "Unknown block encoding" |
| BlockEncodingManagers.Add | trino-deploy-main/src/main/java/io/trino/metadata/BlockEncodingManager.java:55-60 | succeeds exactly when the name is not yet taken, adding just that name; otherwise "Encoding already registered" |
| BlockEncodingManagers.AddThenLookup | trino-deploy-main/src/main/java/io/trino/metadata/BlockEncodingManager.java:48-60 | after a successful add the new name finds the added encoding and every other lookup is unchanged |
| BlockEncodingManagers.AddKeepsEntries | trino-deploy-main/src/main/java/io/trino/metadata/BlockEncodingManager.java:55-60 | a registered name stays registered to the same encoding across any add |
| BlockEncodingManagers.AddFailureKeepsExisting | trino-deploy-main/src/main/java/io/trino/metadata/BlockEncodingManager.java:55-60 | adding under a taken name fails and the existing entry stays (putIfAbsent does not replace) |
| BlockEncodingManagers.AddWellKeyed | trino-deploy-main/src/main/java/io/trino/metadata/BlockEncodingManager.java:55-60 | adding keeps every encoding filed under its own name |
| BlockEncodingManagers.BuiltInNotYetRegistered | trino-deploy-main/src/main/java/io/trino/metadata/BlockEncodingManager.java:28-46 | no built-in registration in the constructor hits an already registered name |
| BlockEncodingManagers.RegisterBuiltIn | trino-deploy-main/src/main/java/io/trino/metadata/BlockEncodingManager.java:28-46 | each registration of the constructor succeeds and extends the registry by that built-in |
| BlockEncodingManagers.FreshRegistryNames | trino-deploy-main/src/main/java/io/trino/metadata/BlockEncodingManager.java:28-46 | a fresh manager knows exactly the built-in names |
| BlockEncodingManagers.FreshRegistrySize | trino-deploy-main/src/main/java/io/trino/metadata/BlockEncodingManager.java:28-46 | a fresh manager holds exactly fifteen encodings |
| BlockEncodingManagers.FreshRegistryWellKeyed | trino-deploy-main/src/main/java/io/trino/metadata/BlockEncodingManager.java:28-46 | a fresh manager files every encoding under its own name |
| BlockEncodingManagers.FreshRegistryLookup | trino-deploy-main/src/main/java/io/trino/metadata/BlockEncodingManager.java:28-53 | in a fresh manager each built-in name finds its built-in encoding |
| BlockEncodingManagers.EncodingNameRegistered | trino-deploy-main/src/main/java/io/trino/metadata/BlockEncodingManager.java:28-53 | the encoding name every block of the model reports can be looked up in a fresh manager |
| BlockEncodingManagers.BlockEncodingManager.constructor | trino-deploy-main/src/main/java/io/trino/metadata/BlockEncodingManager.java:28-46 | registering the fifteen built-ins in order, all succeeding, gives the fresh registry |
| BlockEncodingManagers.BlockEncodingManager.GetBlockEncoding | trino-deploy-main/src/main/java/io/trino/metadata/BlockEncodingManager.java:48-53 | the result is Lookup on the current registry |
| BlockEncodingManagers.BlockEncodingManager.AddBlockEncoding | trino-deploy-main/src/main/java/io/trino/metadata/BlockEncodingManager.java:55-60 | on success the registry becomes Add's result; on failure it is unchanged and the error is Add's; the name-to-encoding invariant is kept |
| BlockEncodingManagers.BuiltIn | trino-deploy-main/src/main/java/io/trino/metadata/BlockEncodingManager.java:28-46 | the k-th encoding the constructor registers carries the k-th built-in name |
| BlockEncodingManagers.BuiltInsUpTo | trino-deploy-main/src/main/java/io/trino/metadata/BlockEncodingManager.java:28-46 | after the first i registrations every one of the first i built-in names is present |
| BlockEncodingManagers.BuiltInsUpToKeys | trino-deploy-main/src/main/java/io/trino/metadata/BlockEncodingManager.java:28-46 | after i registrations the names present are exactly the first i built-in names |
| BlockEncodingManagers.BuiltInsUpToSize | trino-deploy-main/src/main/java/io/trino/metadata/BlockEncodingManager.java:28-46 | after i registrations there are exactly i entries |
| BlockEncodingManagers.BuiltInsUpToWellKeyed | trino-deploy-main/src/main/java/io/trino/metadata/BlockEncodingManager.java:28-46 | after i registrations each entry is filed under its own name |
| BlockEncodingManagers.BuiltInsUpToEntries | trino-deploy-main/src/main/java/io/trino/metadata/BlockEncodingManager.java:28-46 | after i registrations the k-th built-in name finds the k-th built-in encoding |
| BlockEncodingManagers.BuiltInsUpToFacts | trino-deploy-main/src/main/java/io/trino/metadata/BlockEncodingManager.java:28-46 | the size, keying and entries of the registry after i registrations, together |
| ReadOnlyAccessControls.NameText | trino-deploy-plugin-toolkit/src/main/java/io/trino/plugin/base/security/ReadOnlyAccessControl.java:44 | a table's text is the schema name, a dot and the table name |
| ReadOnlyAccessControls.CheckCan | trino-deploy-plugin-toolkit/src/main/java/io/trino/plugin/base/security/ReadOnlyAccessControl.java:31-246 | every check either returns normally or throws an AccessDenied exception |
| ReadOnlyAccessControls.ListingAllowed | trino-deploy-plugin-toolkit/src/main/java/io/trino/plugin/base/security/ReadOnlyAccessControl.java:31-246 | showing schemas, tables, columns, create statements and roles is always allowed |
| ReadOnlyAccessControls.ReadingAllowed | trino-deploy-plugin-toolkit/src/main/java/io/trino/plugin/base/security/ReadOnlyAccessControl.java:135-181 | selecting from columns, directly or through a new view's definition, is always allowed |
| ReadOnlyAccessControls.SessionAllowed | trino-deploy-plugin-toolkit/src/main/java/io/trino/plugin/base/security/ReadOnlyAccessControl.java:207-211 | setting a catalog session property is always allowed |
| ReadOnlyAccessControls.TableDdlDenied | trino-deploy-plugin-toolkit/src/main/java/io/trino/plugin/base/security/ReadOnlyAccessControl.java:42-133 | every table or column change (add, drop, rename, create, properties, comments) is denied, naming the table and no columns |
| ReadOnlyAccessControls.DataChangeDenied | trino-deploy-plugin-toolkit/src/main/java/io/trino/plugin/base/security/ReadOnlyAccessControl.java:141-157 | insert, delete and update are denied, naming the table; only an update names columns, the updated ones |
| ReadOnlyAccessControls.ViewDdlDenied | trino-deploy-plugin-toolkit/src/main/java/io/trino/plugin/base/security/ReadOnlyAccessControl.java:159-205 | creating, renaming and dropping views, and creating, refreshing, renaming and dropping materialized views, are denied |
| ReadOnlyAccessControls.GrantChangeDenied | trino-deploy-plugin-toolkit/src/main/java/io/trino/plugin/base/security/ReadOnlyAccessControl.java:213-223 | granting and revoking privileges is denied |
| ReadOnlyAccessControls.ReadOnly | trino-deploy-plugin-toolkit/src/main/java/io/trino/plugin/base/security/ReadOnlyAccessControl.java:27-246 | a request is allowed exactly when it changes nothing |
| ReadOnlyAccessControls.DenialNamesObjects | trino-deploy-plugin-toolkit/src/main/java/io/trino/plugin/base/security/ReadOnlyAccessControl.java:42-223 | a denial names the table or view (and a rename's new name, or a grant's privilege), and only an update names columns |
| ReadOnlyAccessControls.FilterSchemas | trino-deploy-plugin-toolkit/src/main/java/io/trino/plugin/base/security/ReadOnlyAccessControl.java:36-40 | no schema is filtered out |
| ReadOnlyAccessControls.FilterTables | trino-deploy-plugin-toolkit/src/main/java/io/trino/plugin/base/security/ReadOnlyAccessControl.java:111-115 | no table is filtered out |
| ReadOnlyAccessControls.FilterColumns | trino-deploy-plugin-toolkit/src/main/java/io/trino/plugin/base/security/ReadOnlyAccessControl.java:123-127 | no column is filtered out |
| ReadOnlyAccessControls.DecisionIgnoresIdentity | trino-deploy-plugin-toolkit/src/main/java/io/trino/plugin/base/security/ReadOnlyAccessControl.java:27-246 | the decision depends on the request alone, never on the security context |
| ReadOnlyAccessControls.ViewWithSelectAllowedViewDenied | trino-deploy-plugin-toolkit/src/main/java/io/trino/plugin/base/security/ReadOnlyAccessControl.java:159-181 | selecting through a new view is allowed although creating that view is denied |
| ReadOnlyAccessControls.GrantsDenied | trino-deploy-plugin-toolkit/src/main/java/io/trino/plugin/base/security/ReadOnlyAccessControl.java:213-223 | grant and revoke are denied for every privilege, grantee and grant option, naming the privilege and the table |
| ReadOnlyAccessControls.FilteredTablesMayBeShown | trino-deploy-plugin-toolkit/src/main/java/io/trino/plugin/base/security/ReadOnlyAccessControl.java:111-139 | every table the filter keeps was in the input and may have its columns and create statement shown and be selected from |
| CalculatorNodes.NewLiteral | trino-deploy-antlr4/src/main/java/com/zuoye/trino/delopy/anltr4/calculator/node/LiteralNode.java:9-18 | a literal exists exactly for a non-null Long or Double (assertion failure otherwise), and its type is DOUBLE exactly for a Double and LONG exactly for a Long |
| CalculatorNodes.Inputs | trino-deploy-antlr4/src/main/java/com/zuoye/trino/delopy/anltr4/calculator/node/BinaryNode.java:29-32 | a node has two inputs exactly when it is binary, and they are its left and right operands in that order |
| CalculatorNodes.InferredType | trino-deploy-antlr4/src/main/java/com/zuoye/trino/delopy/anltr4/calculator/node/AbstractNode.java:23-32 | no inputs fail the assertion; otherwise DOUBLE exactly when some input is DOUBLE, else LONG |
| CalculatorNodes.TypeOf | trino-deploy-antlr4/src/main/java/com/zuoye/trino/delopy/anltr4/calculator/node/AbstractNode.java:15-32 | a binary node's type is numeric, and DOUBLE exactly when one of its operands is DOUBLE |
| CalculatorNodes.InputTypes | trino-deploy-antlr4/src/main/java/com/zuoye/trino/delopy/anltr4/calculator/node/AbstractNode.java:24-27 | one type per input, each being that input's type |
| CalculatorNodes.InferTypeFromInputs | trino-deploy-antlr4/src/main/java/com/zuoye/trino/delopy/anltr4/calculator/node/AbstractNode.java:23-32 | the loop with its early return gives the inferred type of the inputs' types |
| CalculatorNodes.AbstractNode.constructor | trino-deploy-antlr4/src/main/java/com/zuoye/trino/delopy/anltr4/calculator/node/AbstractNode.java:11-13 | a new node holds its inputs and has no memoised type |
| CalculatorNodes.AbstractNode.GetType | trino-deploy-antlr4/src/main/java/com/zuoye/trino/delopy/anltr4/calculator/node/AbstractNode.java:15-21 | the result is the inferred type; a memoised type is kept, and an empty memo is filled with a successful result |
| CalculatorNodes.BinaryMemoIsTypeOf | trino-deploy-antlr4/src/main/java/com/zuoye/trino/delopy/anltr4/calculator/node/AbstractNode.java:15-32 | a binary node's memo holds the node's type |
| CalculatorNodes.OperatorCode | trino-deploy-antlr4/src/main/java/com/zuoye/trino/delopy/anltr4/calculator/node/PlusNode.java:15-27 | when an operand's type is neither DOUBLE nor LONG the operator throws IllegalStateException |
| CalculatorNodes.GenerateCode | trino-deploy-antlr4/src/main/java/com/zuoye/trino/delopy/anltr4/calculator/node/PlusNode.java:15-27 | code generation succeeds exactly on trees whose operands all have numeric types, and failures are IllegalStateException |
| CalculatorNodes.LongLiteralCodeRoundTrip | trino-deploy-antlr4/src/main/java/com/zuoye/trino/delopy/anltr4/calculator/node/LiteralNode.java:20-23 | a LONG literal's code is its decimal text, which reads back as the value |
| CalculatorNodes.BinaryCodeIsLowering | trino-deploy-antlr4/src/main/java/com/zuoye/trino/delopy/anltr4/calculator/node/DivisionNode.java:11-23 | for each operator, with both operands' code being their printed lowerings, the node's code is its printed lowering |
| CalculatorNodes.GeneratedCodeIsLowering | trino-deploy-antlr4/src/main/java/com/zuoye/trino/delopy/anltr4/calculator/node/MultiplicationNode.java:11-23 | the generated code of every tree is the printed form of a typed Java expression tree (its lowering) |
| CalculatorNodes.LoweringTyped | trino-deploy-antlr4/src/main/java/com/zuoye/trino/delopy/anltr4/calculator/node/PlusNode.java:15-27 | the lowering has the node's type and every Java operation gets operands of one type: a LONG operand beside a DOUBLE one is cast to double |
| CalculatorNodes.BinaryLoweringTyped | trino-deploy-antlr4/src/main/java/com/zuoye/trino/delopy/anltr4/calculator/node/PlusNode.java:15-27 | with typed operand lowerings the operator's own lowering is typed and its operands agree |
| CalculatorNodes.LongDivisionStaysIntegral | trino-deploy-antlr4/src/main/java/com/zuoye/trino/delopy/anltr4/calculator/node/DivisionNode.java:19-20 | dividing two LONG operands emits Java's integer division without any cast |
| CalculatorNodes.DoubleIffDoubleLeaf | trino-deploy-antlr4/src/main/java/com/zuoye/trino/delopy/anltr4/calculator/node/AbstractNode.java:23-32 | a tree is DOUBLE exactly when one of its leaves is |
| ExpressionFormatters.EscapeCodePoint | trino-deploy-parser/src/main/java/io/trino/sql/ExpressionFormatter.java:788-803 | every code point contributes at least one character to a U&'…' literal, all of them printable ASCII |
| ExpressionFormatters.FormatStringLiteral | trino-deploy-parser/src/main/java/io/trino/sql/ExpressionFormatter.java:777-807 | the method's result is the literal text of the string: quotes doubled, then either plain quoting or the U&'…' escaping |
| ExpressionFormatters.FormatUnicodeLiteral | trino-deploy-parser/src/main/java/io/trino/sql/ExpressionFormatter.java:784-806 | the escaping loop produces "U&'", the escapes of the code points in order, and a closing quote |
| ExpressionFormatters.AppendEscaped | trino-deploy-parser/src/main/java/io/trino/sql/ExpressionFormatter.java:788-803 | one loop iteration appends exactly that code point's escape to the builder |
| ExpressionFormatters.UnescapeOne | trino-deploy-parser/src/main/java/io/trino/sql/ExpressionFormatter.java:790-802 | each escape (a printable character with backslash doubled, \XXXX or \+XXXXXX) reads back as its code point whatever follows it |
| ExpressionFormatters.UnescapeEscapeAll | trino-deploy-parser/src/main/java/io/trino/sql/ExpressionFormatter.java:784-806 | reading the escapes of a text back gives the text |
| ExpressionFormatters.ParseFormattedStringLiteral | trino-deploy-parser/src/main/java/io/trino/sql/ExpressionFormatter.java:777-807 | every formatted string literal reads back as the string it was formatted from |
| ExpressionFormatters.PrintableLiteral | trino-deploy-parser/src/main/java/io/trino/sql/ExpressionFormatter.java:779-782 | text made only of printable ASCII is quoted as it is, with single quotes doubled |
| ExpressionFormatters.FormatIdentifier | trino-deploy-parser/src/main/java/io/trino/sql/ExpressionFormatter.java:52-55 | removing the double quotes and undoubling embedded ones gives back the identifier |
| ExpressionFormatters.CallArguments | trino-deploy-parser/src/main/java/io/trino/sql/ExpressionFormatter.java:315-321 | an argument-less count prints "*"; otherwise the arguments joined by ", "; DISTINCT goes before either |
| ExpressionFormatters.IdentifierForms | trino-deploy-parser/src/main/java/io/trino/sql/ExpressionFormatter.java:265-285 | an undelimited identifier prints verbatim; a delimited one and a symbol reference print quoted and read back as their value; none of them fails |
| ExpressionFormatters.ParenthesisedForms | trino-deploy-parser/src/main/java/io/trino/sql/ExpressionFormatter.java:398-419 | NOT, comparisons, arithmetic, IS NULL, IS NOT NULL and BETWEEN, whenever they print, print inside one pair of enclosing parentheses |
| ExpressionFormatters.UnaryForms | trino-deploy-parser/src/main/java/io/trino/sql/ExpressionFormatter.java:456-469 | unary minus prints "-(" operand ")", so the text after "-" starts with a parenthesis, and unary plus prints "+" operand; either fails exactly as its operand does |
| ExpressionFormatters.CountStar | trino-deploy-parser/src/main/java/io/trino/sql/ExpressionFormatter.java:302-349 | an argument-less count prints "*" (after DISTINCT when distinct) inside the name's parentheses, with its processing mode before the name and its ORDER BY, null treatment, FILTER and OVER clauses in their places |
| ExpressionFormatters.CallArgumentsInOrder | trino-deploy-parser/src/main/java/io/trino/sql/ExpressionFormatter.java:302-349 | a call other than LISTAGG whose arguments and FILTER condition print prints its arguments in order, joined with ", ", after "DISTINCT " when distinct, inside the full clause layout |
| ExpressionFormatters.FormatFrameBound | trino-deploy-parser/src/main/java/io/trino/sql/ExpressionFormatter.java:905-920 | a bounded frame prints its value before PRECEDING or FOLLOWING and fails only when its value does; the other kinds print their fixed text |
| ExpressionFormatters.FrameBoundDirection | trino-deploy-parser/src/main/java/io/trino/sql/ExpressionFormatter.java:905-920 | a printed frame bound ends in PRECEDING exactly for the preceding kinds and in FOLLOWING exactly for the following kinds |
| ExpressionFormatters.StringLiteralText | trino-deploy-parser/src/main/java/io/trino/sql/ExpressionFormatter.java:148-158 | a string or CHAR literal's text ends in a single quote and is printable ASCII in both forms; ParseFormattedStringLiteral proves it reads back |
| ExpressionFormatters.ParseStringLiteral | trino-deploy-parser/src/main/java/io/trino/sql/ExpressionFormatter.java:777-807 | an accepted text ends in a single quote, and an accepted plain literal is the quote-doubled result between single quotes; ParseFormattedStringLiteral proves it inverts the printing |
| ExpressionFormatters.Format | trino-deploy-parser/src/main/java/io/trino/sql/ExpressionFormatter.java:142-587 | the visitor over the modelled node kinds fails only with the IndexOutOfBounds or ClassCastException of a LISTAGG argument read; FormatSucceeds and the lemmas below state each kind's form |
| ExpressionFormatters.Collect | trino-deploy-parser/src/main/java/io/trino/sql/ExpressionFormatter.java:713-717 | the printed arguments succeed exactly when every argument prints, and then are those texts in order; a failure is one of the arguments' failures |
| ExpressionFormatters.FormattedArguments | trino-deploy-parser/src/main/java/io/trino/sql/ExpressionFormatter.java:713-717 | one result per argument, in order, each the argument's own printing |
| ExpressionFormatters.FormatCall | trino-deploy-parser/src/main/java/io/trino/sql/ExpressionFormatter.java:308-349 | visitFunctionCall after the LISTAGG test fails only with a nested LISTAGG's exception; CountStar, CallArgumentsInOrder and CallFailsOnlyThroughOperands state its text and its failures |
| ExpressionFormatters.CountIsNotListagg | trino-deploy-parser/src/main/java/io/trino/sql/ExpressionFormatter.java:304-317 | a count call is never taken for LISTAGG, so it always reaches the general call layout |
| ExpressionFormatters.CallFailsOnlyThroughOperands | trino-deploy-parser/src/main/java/io/trino/sql/ExpressionFormatter.java:302-349 | a call other than LISTAGG fails exactly when one of its arguments or its FILTER condition fails |
| ExpressionFormatters.FormatListagg | trino-deploy-parser/src/main/java/io/trino/sql/ExpressionFormatter.java:729-772 | visitListagg succeeds only on the parser's five arguments and otherwise fails with IndexOutOfBounds or ClassCastException; ListaggForm and ListaggArgumentErrors state the text and the error order |
| ExpressionFormatters.ListaggForm | trino-deploy-parser/src/main/java/io/trino/sql/ExpressionFormatter.java:729-772 | a five-argument LISTAGG prints "LISTAGG(", DISTINCT when distinct, its expression and separator, ON OVERFLOW with " ERROR" or TRUNCATE, the filler and WITH or WITHOUT COUNT, and WITHIN GROUP for its ORDER BY |
| ExpressionFormatters.ListaggIgnoresCallClauses | trino-deploy-parser/src/main/java/io/trino/sql/ExpressionFormatter.java:302-306 | LISTAGG is dispatched before any other clause is printed: its formatted name, processing mode, null treatment, FILTER and OVER do not change its text |
| ExpressionFormatters.ListaggArgumentErrors | trino-deploy-parser/src/main/java/io/trino/sql/ExpressionFormatter.java:735-739 | a LISTAGG call with fewer than five arguments throws IndexOutOfBounds at the first missing index, and one whose flag argument is not a boolean literal throws ClassCast, in the order the arguments are read |
| ExpressionFormatters.FormatSucceeds | trino-deploy-parser/src/main/java/io/trino/sql/ExpressionFormatter.java:302-772 | a tree every LISTAGG of which has the parser's five arguments always prints |
| IpAddressTypes.FixedSize | trino-deploy-main/src/main/java/io/trino/type/IpAddressType.java:51-54 | an IPADDRESS value occupies 128 bits |
| IpAddressTypes.GetLong | trino-deploy-main/src/main/java/io/trino/type/IpAddressType.java:137-142 | Slice.getLong reads, as an unsigned pattern, the little-endian value of the eight bytes at the offset |
| IpAddressTypes.ReversedLong | trino-deploy-main/src/main/java/io/trino/type/IpAddressType.java:215-222 | byte-reversing a stored long gives, unsigned, the big-endian value of its eight bytes |
| IpAddressTypes.BigEndianOrder | trino-deploy-main/src/main/java/io/trino/type/IpAddressType.java:215-222 | big-endian values of equal-length byte strings compare like the strings, byte by byte |
| IpAddressTypes.EqualOperator | trino-deploy-main/src/main/java/io/trino/type/IpAddressType.java:154-176 | two addresses are equal exactly when their 16 bytes are |
| IpAddressTypes.LongsDetermineBytes | trino-deploy-main/src/main/java/io/trino/type/IpAddressType.java:173-176 | the two longs of an address are equal exactly when the addresses are |
| IpAddressTypes.ComparisonOperator | trino-deploy-main/src/main/java/io/trino/type/IpAddressType.java:196-204 | the comparison of two addresses is the lexicographic order of their 16 bytes |
| IpAddressTypes.HalfIsLexicographic | trino-deploy-main/src/main/java/io/trino/type/IpAddressType.java:217 | comparing one byte-reversed half unsigned is comparing its eight bytes lexicographically |
| IpAddressTypes.ComparisonIsLexicographic | trino-deploy-main/src/main/java/io/trino/type/IpAddressType.java:215-222 | compareBigEndian on the four stored longs orders addresses like their bytes in network order |
| IpAddressTypes.CompareBigEndianOfHalves | trino-deploy-main/src/main/java/io/trino/type/IpAddressType.java:215-222 | compareBigEndian decides on the first halves unless they compare equal, then on the second |
| IpAddressTypes.ComparisonConsistentWithEqual | trino-deploy-main/src/main/java/io/trino/type/IpAddressType.java:154-222 | the comparison is zero exactly when the equal operator holds, and swapping the operands negates it |
| IpAddressTypes.WriteSlice | trino-deploy-main/src/main/java/io/trino/type/IpAddressType.java:135-143 | a write succeeds exactly when the length is 16; any other length, negative ones included, gives IllegalStateException "Expected entry size to be exactly 16 but was …" |
| IpAddressTypes.WriteThenGetSlice | trino-deploy-main/src/main/java/io/trino/type/IpAddressType.java:129-152 | reading back what writeSlice stored gives exactly the 16 bytes of the written region |
| IpAddressTypes.Equal | trino-deploy-main/src/main/java/io/trino/type/IpAddressType.java:173-176 | both halves are equal exactly when getSlice gives the same 16 bytes for both sides |
| IpAddressTypes.CompareBigEndian | trino-deploy-main/src/main/java/io/trino/type/IpAddressType.java:215-222 | 0 exactly when both halves are equal; ComparisonIsLexicographic proves this is the byte-wise order of the addresses |
| IpAddressTypes.ReverseBytesInjective | trino-deploy-main/src/main/java/io/trino/type/IpAddressType.java:215-222 | Long.reverseBytes maps distinct longs to distinct longs |
| IpAddressTypes.GetSlice | trino-deploy-main/src/main/java/io/trino/type/IpAddressType.java:146-152 | the 16 bytes read back as the same two longs; WriteThenGetSlice proves it returns the bytes writeSlice stored |
| DateTimeUtils.Negated | trino-deploy-main/src/main/java/io/trino/util/DateTimeUtils.java:308-310 | negating a period of non-negative fields negates each field, giving a period of non-positive fields |
| DateTimeUtils.CreatePeriodFormatter | trino-deploy-main/src/main/java/io/trino/util/DateTimeUtils.java:326-387 | a missing end field means the start field; building fails exactly for YEAR or MONTH with an end that does not make a year-month qualifier, with "Invalid interval qualifier" |
| DateTimeUtils.FormatterLayout | trino-deploy-main/src/main/java/io/trino/util/DateTimeUtils.java:326-387 | for every legal qualifier the formatter has one sub-parser per field from the start to the end field, each a prefix of the next, with "-", " " and ":" between the fields |
| DateTimeUtils.ParseInto | trino-deploy-main/src/main/java/io/trino/util/DateTimeUtils.java:400-436 | the loop's position and installed period are those of the specification of the scan over the sub-parsers' outcomes |
| DateTimeUtils.ParseIntoNeverFails | trino-deploy-main/src/main/java/io/trino/util/DateTimeUtils.java:427-435 | bestValidPos never falls below the start position, so the failure code is never returned, and a period is installed exactly when the position advanced |
| DateTimeUtils.ParseIntoIsBest | trino-deploy-main/src/main/java/io/trino/util/DateTimeUtils.java:400-433 | the returned position is the largest any examined sub-parser reached, and the installed period is the one that sub-parser filled |
| DateTimeUtils.FirstCompleteParseWins | trino-deploy-main/src/main/java/io/trino/util/DateTimeUtils.java:411-417 | the first sub-parser that consumes the whole text and improves on the best decides, whatever later ones would do |
| DateTimeUtils.NoProgressKeepsPosition | trino-deploy-main/src/main/java/io/trino/util/DateTimeUtils.java:400-433 | when no sub-parser advances, parseInto returns the start position and installs nothing |
| DateTimeUtils.FormatterParse | trino-deploy-main/src/main/java/io/trino/util/DateTimeUtils.java:303 | a failed parse of the formatter is an IllegalArgumentException |
| DateTimeUtils.ParsePeriod | trino-deploy-main/src/main/java/io/trino/util/DateTimeUtils.java:296-312 | failures are IllegalArgumentException; a value with a leading "-" gives a non-positive period, any other a non-negative one |
| DateTimeUtils.ParsePeriodSign | trino-deploy-main/src/main/java/io/trino/util/DateTimeUtils.java:296-312 | a leading "-" gives exactly the negation of what the rest parses to, and fails exactly when the rest does |
| DateTimeUtils.InvalidInterval | trino-deploy-main/src/main/java/io/trino/util/DateTimeUtils.java:314-324 | the exception is INVALID_FUNCTION_ARGUMENT, naming one field when start and end agree and both otherwise |
| DateTimeUtils.InvalidIntervalNamesBothFieldsWhenDifferent | trino-deploy-main/src/main/java/io/trino/util/DateTimeUtils.java:316-322 | the message names the end field exactly when it differs from the start field |
| DateTimeUtils.ParseInterval | trino-deploy-main/src/main/java/io/trino/util/DateTimeUtils.java:249-262 | the try block up to the conversion: it succeeds exactly when parsePeriod does, with its period, and every failure becomes invalidInterval for the qualifier |
| DateTimeUtils.Caught | trino-deploy-main/src/main/java/io/trino/util/DateTimeUtils.java:260-262 | the catch clause: a conversion's IllegalArgumentException becomes invalidInterval, while its result and any other failure pass unchanged |
| DateTimeUtils.ParsePeriodMillis | trino-deploy-main/src/main/java/io/trino/util/DateTimeUtils.java:249-263 | a period that fails to parse gives invalidInterval; otherwise the result is the conversion of its day, hour, minute, second and millisecond fields; no IllegalArgumentException escapes |
| DateTimeUtils.ParsePeriodMonths | trino-deploy-main/src/main/java/io/trino/util/DateTimeUtils.java:283-294 | a period that fails to parse gives invalidInterval; otherwise the result is the conversion of its year and month fields; no IllegalArgumentException escapes |
| DateTimeUtils.ListedDayTimePairs | trino-deploy-main/src/main/java/io/trino/util/DateTimeUtils.java:208-247 | the qualifiers listed for day-time intervals are exactly a day-time field down to a smaller or equal one |
| DateTimeUtils.ParseDayTimeInterval | trino-deploy-main/src/main/java/io/trino/util/DateTimeUtils.java:208-247 | exactly the day-time qualifiers are accepted, each parsed into milliseconds with the formatter built for it; others fail with "Invalid day second interval qualifier" |
| DateTimeUtils.ParseYearMonthInterval | trino-deploy-main/src/main/java/io/trino/util/DateTimeUtils.java:265-281 | exactly YEAR TO MONTH, YEAR and MONTH are accepted, each parsed into months with its formatter; others fail with "Invalid year month interval qualifier" |
| DateTimeUtils.DayTimeIntervalSign | trino-deploy-main/src/main/java/io/trino/util/DateTimeUtils.java:208-312 | an accepted day-time interval has a day-time qualifier and is the conversion of a parsed period; that period is non-positive when the text starts with "-" and non-negative when it does not |
| DateTimeUtils.YearMonthIntervalSign | trino-deploy-main/src/main/java/io/trino/util/DateTimeUtils.java:265-312 | an accepted year-month interval has a year-month qualifier and is the conversion of a parsed period; that period is non-positive when the text starts with "-" and non-negative when it does not |
| FixedSourcePartitionedSchedulers.CheckArguments | trino-deploy-main/src/main/java/io/trino/execution/scheduler/FixedSourcePartitionedScheduler.java:78-93 | the checks pass exactly when there are nodes, the split sources are keyed by exactly the scheduled plan nodes, and the handles are [NOT_PARTITIONED] exactly when the stage is ungrouped; no nodes fails first with "nodes is empty" |
| FixedSourcePartitionedSchedulers.ConcurrentLifespans | trino-deploy-main/src/main/java/io/trino/execution/scheduler/FixedSourcePartitionedScheduler.java:94-101 | never more than the partition count; without a per-task count it is the partition count, and with one (and no int overflow) the per-task count times the node count when that fits, else the partition count |
| FixedSourcePartitionedSchedulers.BatchSize | trino-deploy-main/src/main/java/io/trino/execution/scheduler/FixedSourcePartitionedScheduler.java:118 | defined exactly when the lifespan count is non-zero, and then at least 1; a zero count is the "/ by zero" ArithmeticException |
| FixedSourcePartitionedSchedulers.BatchesShareTheBudget | trino-deploy-main/src/main/java/io/trino/execution/scheduler/FixedSourcePartitionedScheduler.java:118 | each lifespan gets the split batch size divided by the lifespan count, so the shares together stay within it, and one split each when the budget is smaller than the count |
| FixedSourcePartitionedSchedulers.LifespansPositive | trino-deploy-main/src/main/java/io/trino/execution/scheduler/FixedSourcePartitionedScheduler.java:94-118 | with nodes and partitions and a positive per-task count that does not overflow, the lifespan count is positive and the batch size is defined |
| FixedSourcePartitionedSchedulers.ZeroPerTaskDividesByZero | trino-deploy-main/src/main/java/io/trino/execution/scheduler/FixedSourcePartitionedScheduler.java:94-118 | a per-task count of zero makes the lifespan count zero, and the batch-size division throws |
| FixedSourcePartitionedSchedulers.SetupFor | trino-deploy-main/src/main/java/io/trino/execution/scheduler/FixedSourcePartitionedScheduler.java:107-137 | the scheduler for a plan node has that node and the shared batch size; it is wrapped as grouped exactly in a grouped stage for an ungrouped scan, and started task-wide exactly as the first node of an ungrouped stage |
| FixedSourcePartitionedSchedulers.Construct | trino-deploy-main/src/main/java/io/trino/execution/scheduler/FixedSourcePartitionedScheduler.java:61-161 | a built scheduler passed every argument check and holds one source scheduler per scheduled plan node |
| FixedSourcePartitionedSchedulers.ConstructStartsFirstOnly | trino-deploy-main/src/main/java/io/trino/execution/scheduler/FixedSourcePartitionedScheduler.java:107-137 | the schedulers follow the scheduling order with a batch size of at least 1; only the first is started task-wide, and only in an ungrouped stage; exactly the ungrouped scans of a grouped stage are wrapped |
| FixedSourcePartitionedSchedulers.ConstructRejectsMismatchedSources | trino-deploy-main/src/main/java/io/trino/execution/scheduler/FixedSourcePartitionedScheduler.java:86 | a plan node that is a split-source key but not scheduled, or the reverse, makes construction fail |
| FixedSourcePartitionedSchedulers.Started | trino-deploy-main/src/main/java/io/trino/execution/scheduler/FixedSourcePartitionedScheduler.java:337-346 | the lifespan is remembered as pending; the inner scheduler is started task-wide and told no more lifespans on the first call only |
| FixedSourcePartitionedSchedulers.NoMoreLifespansCheck | trino-deploy-main/src/main/java/io/trino/execution/scheduler/FixedSourcePartitionedScheduler.java:349-352 | succeeds exactly once a lifespan was started, otherwise IllegalStateException |
| FixedSourcePartitionedSchedulers.Drain | trino-deploy-main/src/main/java/io/trino/execution/scheduler/FixedSourcePartitionedScheduler.java:355-368 | once completed, hands back and clears the pending lifespans; before that nothing while the inner drain is empty, a failure (keeping the pending ones) when it is anything but [taskWide], and all pending lifespans when it is exactly [taskWide] |
| FixedSourcePartitionedSchedulers.CloseInner | trino-deploy-main/src/main/java/io/trino/execution/scheduler/FixedSourcePartitionedScheduler.java:317-321 | close closes the inner scheduler and changes nothing else |
| FixedSourcePartitionedSchedulers.InitialConsistent | trino-deploy-main/src/main/java/io/trino/execution/scheduler/FixedSourcePartitionedScheduler.java:311-315 | a new adapter has started the inner scheduler no times |
| FixedSourcePartitionedSchedulers.StartLifespanConsistent | trino-deploy-main/src/main/java/io/trino/execution/scheduler/FixedSourcePartitionedScheduler.java:337-346 | however many lifespans are started, the inner scheduler is started exactly once, task-wide |
| FixedSourcePartitionedSchedulers.DrainConsistent | trino-deploy-main/src/main/java/io/trino/execution/scheduler/FixedSourcePartitionedScheduler.java:355-368 | draining keeps the adapter's invariant (started once, completed only after starting) |
| FixedSourcePartitionedSchedulers.CloseConsistent | trino-deploy-main/src/main/java/io/trino/execution/scheduler/FixedSourcePartitionedScheduler.java:317-321 | closing keeps the adapter's invariant |
| FixedSourcePartitionedSchedulers.StartedLifespansReturnedOnCompletion | trino-deploy-main/src/main/java/io/trino/execution/scheduler/FixedSourcePartitionedScheduler.java:355-368 | every started lifespan is handed back by the drain in which the inner scheduler reports completion, and none stays pending |
| FixedSourcePartitionedSchedulers.DrainAfterStarts | trino-deploy-main/src/main/java/io/trino/execution/scheduler/FixedSourcePartitionedScheduler.java:337-368 | once completed, a drain returns exactly the lifespans started since the previous drain, in order |
| FixedSourcePartitionedSchedulers.AsGroupedSourceScheduler.constructor | trino-deploy-main/src/main/java/io/trino/execution/scheduler/FixedSourcePartitionedScheduler.java:311-315 | a new adapter is neither started nor completed and has nothing pending |
| FixedSourcePartitionedSchedulers.AsGroupedSourceScheduler.StartLifespan | trino-deploy-main/src/main/java/io/trino/execution/scheduler/FixedSourcePartitionedScheduler.java:337-346 | the new state is Started of the old one |
| FixedSourcePartitionedSchedulers.AsGroupedSourceScheduler.NoMoreLifespans | trino-deploy-main/src/main/java/io/trino/execution/scheduler/FixedSourcePartitionedScheduler.java:349-352 | the result is checkState's verdict on the current state, which is unchanged |
| FixedSourcePartitionedSchedulers.AsGroupedSourceScheduler.DrainCompletedLifespans | trino-deploy-main/src/main/java/io/trino/execution/scheduler/FixedSourcePartitionedScheduler.java:355-368 | the new state and result are those of Drain |
| FixedSourcePartitionedSchedulers.AsGroupedSourceScheduler.Close | trino-deploy-main/src/main/java/io/trino/execution/scheduler/FixedSourcePartitionedScheduler.java:317-321 | the new state is CloseInner of the old one |
| FixedSourcePartitionedSchedulers.FixedSourcePartitionedScheduler.constructor | trino-deploy-main/src/main/java/io/trino/execution/scheduler/FixedSourcePartitionedScheduler.java:103-160 | the scheduler keeps the partition handles and one source scheduler per plan node in scheduling order, nothing closed |
| FixedSourcePartitionedSchedulers.FixedSourcePartitionedScheduler.PartitionHandleFor | trino-deploy-main/src/main/java/io/trino/execution/scheduler/FixedSourcePartitionedScheduler.java:163-169 | NOT_PARTITIONED for the task-wide lifespan; otherwise the handle at the lifespan's id, or IndexOutOfBounds when there is none |
| FixedSourcePartitionedSchedulers.FixedSourcePartitionedScheduler.Close | trino-deploy-main/src/main/java/io/trino/execution/scheduler/FixedSourcePartitionedScheduler.java:248-259 | every scheduler is closed in order, each failure adds a warning instead of stopping the loop, and the list is then cleared |
| FixedSourcePartitionedSchedulers.CloseReachesEvery | trino-deploy-main/src/main/java/io/trino/execution/scheduler/FixedSourcePartitionedScheduler.java:248-259 | close visits every scheduler; there is a warning exactly when some close throws |
| FixedSourcePartitionedSchedulers.NewFixedSourcePartitionedScheduler | trino-deploy-main/src/main/java/io/trino/execution/scheduler/FixedSourcePartitionedScheduler.java:61-161 | the call succeeds exactly when Construct does, with its error otherwise, and then holds Construct's schedulers and the partition handles |
| FixedSourcePartitionedSchedulers.Setups | trino-deploy-main/src/main/java/io/trino/execution/scheduler/FixedSourcePartitionedScheduler.java:107-137 | one scheduler per plan node in scheduling order, the i-th the setup of the i-th node |
| FixJsonDataUtils.ParseJavaInteger | trino-deploy-client/src/main/java/io/trino/client/FixJsonDataUtils.java:101-116 | a parsed number lies in the target type's range; any failure is a NumberFormatException for the text |
| FixJsonDataUtils.ParseJavaIntegerOfText | trino-deploy-client/src/main/java/io/trino/client/FixJsonDataUtils.java:101-116 | the decimal text of an in-range number parses back to it |
| FixJsonDataUtils.ParseJavaIntegerOutOfRange | trino-deploy-client/src/main/java/io/trino/client/FixJsonDataUtils.java:101-116 | the decimal text of an out-of-range number is rejected |
| FixJsonDataUtils.FixScalar | trino-deploy-client/src/main/java/io/trino/client/FixJsonDataUtils.java:98-161 | string-family types accept exactly strings, unchanged; BIGINT narrows numbers to a long and parses strings; BING_TILE keeps the value; BOOLEAN strings are true exactly for "true" ignoring case; other types decode strings as Base64 and keep non-strings |
| FixJsonDataUtils.IntegerTextRoundTrip | trino-deploy-client/src/main/java/io/trino/client/FixJsonDataUtils.java:99-118 | a BIGINT, INTEGER, SMALLINT or TINYINT given as the decimal text of an in-range number fixes to that number |
| FixJsonDataUtils.NarrowTextOutOfRange | trino-deploy-client/src/main/java/io/trino/client/FixJsonDataUtils.java:114-118 | a TINYINT text outside the byte range is rejected, not wrapped |
| FixJsonDataUtils.FixValue | trino-deploy-client/src/main/java/io/trino/client/FixJsonDataUtils.java:55-162 | null stays null; a fixed ARRAY came from a list and is a list, a fixed ROW came from a list as long as its parameters and is a row, a fixed MAP came from an object and is a map |
| FixJsonDataUtils.FixElementsErrorPersists | trino-deploy-client/src/main/java/io/trino/client/FixJsonDataUtils.java:61-67 | once an element fails, the array fails with that error |
| FixJsonDataUtils.FixElementsValues | trino-deploy-client/src/main/java/io/trino/client/FixJsonDataUtils.java:61-67 | a fixed array fixed each element with the first type argument, keeping the order |
| FixJsonDataUtils.FixElementsSucceed | trino-deploy-client/src/main/java/io/trino/client/FixJsonDataUtils.java:61-67 | an array fixes when its type argument is there and every element fixes |
| FixJsonDataUtils.ArrayFixedElementwise | trino-deploy-client/src/main/java/io/trino/client/FixJsonDataUtils.java:61-67 | an ARRAY fixes exactly when it is empty or every element fixes, keeping length and order, element i being the fixed original element i |
| FixJsonDataUtils.FixFieldsFieldwise | trino-deploy-client/src/main/java/io/trino/client/FixJsonDataUtils.java:81-95 | each field of a fixed row comes from a named-type parameter and holds the fixed value under the parameter's name (or none) |
| FixJsonDataUtils.FixFieldsSucceed | trino-deploy-client/src/main/java/io/trino/client/FixJsonDataUtils.java:81-95 | a row's fields fix when every parameter is a named type and every value fixes |
| FixJsonDataUtils.RowFixedFieldwise | trino-deploy-client/src/main/java/io/trino/client/FixJsonDataUtils.java:77-97 | a ROW whose length differs from its parameter count fails with "Mismatched data values and row type"; otherwise it fixes exactly when every parameter is named and every value fixes, giving one field per parameter |
| FixJsonDataUtils.FixEntriesAllFix | trino-deploy-client/src/main/java/io/trino/client/FixJsonDataUtils.java:68-76 | a fixed map fixed every key and every value |
| FixJsonDataUtils.FixEntriesKeys | trino-deploy-client/src/main/java/io/trino/client/FixJsonDataUtils.java:68-76 | the fixed map's keys are exactly the fixed keys of the entries |
| FixJsonDataUtils.FixEntriesLastWins | trino-deploy-client/src/main/java/io/trino/client/FixJsonDataUtils.java:71-74 | under each key sits the fixed value of the last entry with that fixed key: a later put replaces an earlier one |
| FixJsonDataUtils.FixEntriesDuplicateKey | trino-deploy-client/src/main/java/io/trino/client/FixJsonDataUtils.java:71-74 | two entries whose keys fix to the same key leave one entry, the second |
| FixJsonDataUtils.FixData | trino-deploy-client/src/main/java/io/trino/client/FixJsonDataUtils.java:31-50 | no data stays no data, and fixed data has one row per original row |
| FixJsonDataUtils.FixCellsCellwise | trino-deploy-client/src/main/java/io/trino/client/FixJsonDataUtils.java:43-46 | each fixed cell is its column's fixValue of the original cell |
| FixJsonDataUtils.FixRowsRowwise | trino-deploy-client/src/main/java/io/trino/client/FixJsonDataUtils.java:41-48 | each fixed row holds its columns' fixed cells |
| FixJsonDataUtils.FixDataCellwise | trino-deploy-client/src/main/java/io/trino/client/FixJsonDataUtils.java:31-50 | every row of the fixed data has one cell per column, and cell i of row k is column i's fixValue of the original cell |
| FixJsonDataUtils.FixRowsSizeMismatch | trino-deploy-client/src/main/java/io/trino/client/FixJsonDataUtils.java:41-42 | the first row whose size differs from the column count fails the whole call with "row/column size mismatch" |
| FixJsonDataUtils.FixValueOf | trino-deploy-client/src/main/java/io/trino/client/FixJsonDataUtils.java:55-162 | the method's result is FixValue |
| FixJsonDataUtils.FixArray | trino-deploy-client/src/main/java/io/trino/client/FixJsonDataUtils.java:62-66 | the loop's result is the specification of the array's elements |
| FixJsonDataUtils.FixMap | trino-deploy-client/src/main/java/io/trino/client/FixJsonDataUtils.java:69-75 | the loop's result is the specification of the map's puts in entry order |
| FixJsonDataUtils.FixRow | trino-deploy-client/src/main/java/io/trino/client/FixJsonDataUtils.java:78-96 | the loop's result is the specification of the row's fields |
| FixJsonDataUtils.FixDataOf | trino-deploy-client/src/main/java/io/trino/client/FixJsonDataUtils.java:31-50 | the nested loops' result is FixData |
| FixJsonDataUtils.FixRowCells | trino-deploy-client/src/main/java/io/trino/client/FixJsonDataUtils.java:43-46 | the inner loop's result is the specification of the row's cells |
| FixJsonDataUtils.FixElements | trino-deploy-client/src/main/java/io/trino/client/FixJsonDataUtils.java:61-67 | the fixed first n array elements, one per element; FixElementsValues and FixElementsErrorPersists state the values and the first error |
| FixJsonDataUtils.FixEntries | trino-deploy-client/src/main/java/io/trino/client/FixJsonDataUtils.java:68-76 | the map after the first n entries has at most n keys, as a later duplicate key replaces an earlier one; FixEntriesKeys and FixEntriesLastWins state its keys and values |
| FixJsonDataUtils.FixFields | trino-deploy-client/src/main/java/io/trino/client/FixJsonDataUtils.java:81-95 | the first n row fields, one per value; FixFieldsFieldwise states each field |
| FixJsonDataUtils.FixCells | trino-deploy-client/src/main/java/io/trino/client/FixJsonDataUtils.java:43-46 | the fixed first n cells, one per column; FixCellsCellwise states each cell |
| FixJsonDataUtils.FixRows | trino-deploy-client/src/main/java/io/trino/client/FixJsonDataUtils.java:41-48 | the fixed first n rows, one per data row; FixRowsRowwise and FixRowsSizeMismatch state the rows and the size check |
| TypeCoercions.BaseOf | trino-deploy-main/src/main/java/io/trino/type/TypeCoercion.java:269-272 | a type's base name tells ROW, ARRAY and MAP apart exactly by their constructor |
| TypeCoercions.DecimalSuperType | trino-deploy-main/src/main/java/io/trino/type/TypeCoercion.java:61-69 | the common decimal keeps the larger scale; its precision is the larger integer part plus that scale when this fits in 38 digits, and 38 otherwise |
| TypeCoercions.VarcharSuperType | trino-deploy-main/src/main/java/io/trino/type/TypeCoercion.java:71-79 | the common varchar is unbounded exactly when either side is, and otherwise the longer bound |
| TypeCoercions.CharSuperType | trino-deploy-main/src/main/java/io/trino/type/TypeCoercion.java:81-83 | the common char is at least as long as both and as long as one of them |
| TypeCoercions.CoerceTypeBase | trino-deploy-main/src/main/java/io/trino/type/TypeCoercion.java:410-797 | coercing to one's own base gives the source back; any other coercion takes a scalar to a scalar of the requested base, except VARCHAR to a non-decimal number, which goes to a decimal |
| TypeCoercions.Compatible | trino-deploy-main/src/main/java/io/trino/type/TypeCoercion.java:814-816 | a compatibility built from a super type is compatible and keeps the checked invariant that coercible implies a super type |
| TypeCoercions.Incompatible | trino-deploy-main/src/main/java/io/trino/type/TypeCoercion.java:818-820 | the incompatible value has no super type and is not coercible |
| TypeCoercions.Compatibility | trino-deploy-main/src/main/java/io/trino/type/TypeCoercion.java:257-342 | every compatibility computed keeps the invariant that coercible implies a super type |
| TypeCoercions.SameBaseCompatibility | trino-deploy-main/src/main/java/io/trino/type/TypeCoercion.java:272-326 | two different types of one base get the family rule and keep the invariant |
| TypeCoercions.CoercionCompatibility | trino-deploy-main/src/main/java/io/trino/type/TypeCoercion.java:327-341 | two different bases get the coercion retry and keep the invariant |
| TypeCoercions.RowCompatibility | trino-deploy-main/src/main/java/io/trino/type/TypeCoercion.java:344-374 | row compatibility keeps the invariant |
| TypeCoercions.CommonName | trino-deploy-main/src/main/java/io/trino/type/TypeCoercion.java:363-366 | a common field keeps a name exactly when both fields have that same name |
| TypeCoercions.RowFields | trino-deploy-main/src/main/java/io/trino/type/TypeCoercion.java:351-371 | when every field is compatible there is one common field per remaining position |
| TypeCoercions.FieldCompatibility | trino-deploy-main/src/main/java/io/trino/type/TypeCoercion.java:352-355 | the compatibility of a pair of field types keeps the invariant |
| TypeCoercions.CovariantCompatibility | trino-deploy-main/src/main/java/io/trino/type/TypeCoercion.java:376-407 | array and map compatibility keeps the invariant |
| TypeCoercions.IsCovariantParametrizedType | trino-deploy-main/src/main/java/io/trino/type/TypeCoercion.java:89-92 | ARRAY and MAP are exactly the types whose base name is array or map, so a row type never coerces covariantly |
| TypeCoercions.GetCommonSuperType | trino-deploy-main/src/main/java/io/trino/type/TypeCoercion.java:239-245 | empty exactly when the types are incompatible, and otherwise the compatibility's super type |
| TypeCoercions.CanCoerce | trino-deploy-main/src/main/java/io/trino/type/TypeCoercion.java:252-255 | whatever coerces has a common super type |
| TypeCoercions.TypeOnlyCoercion | trino-deploy-main/src/main/java/io/trino/type/TypeCoercion.java:156-214 | a type-only coercion is the identity or a coercion |
| TypeCoercions.CompatibilityReflexive | trino-deploy-main/src/main/java/io/trino/type/TypeCoercion.java:157-159 | a type is compatible and coercible with itself, with itself as super type, and the coercion is type-only |
| TypeCoercions.UnknownCoercion | trino-deploy-main/src/main/java/io/trino/type/TypeCoercion.java:262-268 | UNKNOWN coerces to every type, which is the super type; every type is compatible with UNKNOWN but only UNKNOWN coerces to it |
| TypeCoercions.CharNeverCoercesToVarchar | trino-deploy-main/src/main/java/io/trino/type/TypeCoercion.java:731-737 | CHAR has no rule to VARCHAR, so no CHAR coerces to any VARCHAR |
| TypeCoercions.VarcharToChar | trino-deploy-main/src/main/java/io/trino/type/TypeCoercion.java:680-688 | a bounded VARCHAR coerces to CHAR(n) exactly when its bound, capped at 65536, is at most n |
| TypeCoercions.VarcharCoercion | trino-deploy-main/src/main/java/io/trino/type/TypeCoercion.java:71-79 | within VARCHAR, coercion holds exactly when the target is unbounded or the bound grows, and every such coercion is type-only |
| TypeCoercions.CharCoercion | trino-deploy-main/src/main/java/io/trino/type/TypeCoercion.java:81-83 | within CHAR, coercion holds exactly when the length grows, and the super type is the longer CHAR |
| TypeCoercions.TimestampCoercion | trino-deploy-main/src/main/java/io/trino/type/TypeCoercion.java:294-300 | within TIMESTAMP, coercion holds exactly when the precision grows |
| TypeCoercions.DecimalSuperTypeAbsorbs | trino-deploy-main/src/main/java/io/trino/type/TypeCoercion.java:61-69 | the common decimal of either argument with the common decimal is the common decimal again |
| TypeCoercions.DecimalsCoerceToSuperType | trino-deploy-main/src/main/java/io/trino/type/TypeCoercion.java:273-278 | both decimals coerce to their common decimal |
| TypeCoercions.DecimalTypeOnly | trino-deploy-main/src/main/java/io/trino/type/TypeCoercion.java:169-178 | growing a well-formed decimal's precision at one scale is a coercion, and type-only exactly when both are short or both long |
| TypeCoercions.IntegerWidening | trino-deploy-main/src/main/java/io/trino/type/TypeCoercion.java:462-549 | TINYINT, SMALLINT and INTEGER each coerce to the wider integer types |
| TypeCoercions.IntegerDecimalTargets | trino-deploy-main/src/main/java/io/trino/type/TypeCoercion.java:475-476 | TINYINT, SMALLINT, INTEGER and BIGINT become DECIMAL(3,0), (5,0), (10,0) and (19,0) |
| TypeCoercions.OneWayCompatibility | trino-deploy-main/src/main/java/io/trino/type/TypeCoercion.java:327-339 | a rule in one direction only gives a coercion that way, not back, with the wider type as super type in both orders |
| TypeCoercions.IntegerWideningOneWay | trino-deploy-main/src/main/java/io/trino/type/TypeCoercion.java:462-561 | the narrower integer coerces to the wider, never back, and the wider is the super type in both argument orders |
| TypeCoercions.NumericToTextOnlyWhenComparing | trino-deploy-main/src/main/java/io/trino/type/TypeCoercion.java:477-486 | an integer, floating-point or decimal type has a rule to CHAR or VARCHAR exactly when comparing |
| TypeCoercions.VarcharToIntegerOnlyWhenNotComparing | trino-deploy-main/src/main/java/io/trino/type/TypeCoercion.java:697-704 | VARCHAR has a rule to an integer type exactly when not comparing, and it gives DECIMAL(38,0) |
| TypeCoercions.UuidAndCharCoerceBothWays | trino-deploy-main/src/main/java/io/trino/type/TypeCoercion.java:451-455 | UUID and CHAR(65536) coerce to each other, and each argument order takes its own side's type as super type |
| TypeCoercions.Parameters | trino-deploy-main/src/main/java/io/trino/type/TypeCoercion.java:380-382 | an array has one type parameter and a map two |
| TypeCoercions.WithParameters | trino-deploy-main/src/main/java/io/trino/type/TypeCoercion.java:398-402 | the rebuilt type keeps the base and carries exactly the given parameters |
| TypeCoercions.RowFieldsStep | trino-deploy-main/src/main/java/io/trino/type/TypeCoercion.java:351-371 | one step of the field loop: an incompatible field makes the whole row incompatible, and a compatible one appends its common field and joins its coercibility |
| TypeCoercions.TypeCoercion.constructor | trino-deploy-main/src/main/java/io/trino/type/TypeCoercion.java:55-59 | a new coercion table starts in comparison mode |
| TypeCoercions.TypeCoercion.TypeCompatibilityForRow | trino-deploy-main/src/main/java/io/trino/type/TypeCoercion.java:344-374 | the loop with its early return computes the row compatibility |
| TypeCoercions.TypeCoercion.TypeCompatibilityForCovariantParametrizedType | trino-deploy-main/src/main/java/io/trino/type/TypeCoercion.java:376-407 | the loop over type parameters computes the array or map compatibility |
| TypeCoercions.TypeCoercion.IsTypeOnlyCoercion | trino-deploy-main/src/main/java/io/trino/type/TypeCoercion.java:156-214 | the method computes the type-only predicate, which is the identity or a coercion |
| TypeCoercions.TypeCoercion.IsCoercibleTypeOnly | trino-deploy-main/src/main/java/io/trino/type/TypeCoercion.java:161-163 | after the canCoerce check, the method computes the type-only predicate |
| TypeCoercions.TypeCoercion.IsTypeOnlyShape | trino-deploy-main/src/main/java/io/trino/type/TypeCoercion.java:165-197 | the VARCHAR, DECIMAL and ROW cases compute the type-only predicate |
| TypeCoercions.TypeCoercion.IsCovariantTypeOnly | trino-deploy-main/src/main/java/io/trino/type/TypeCoercion.java:199-213 | the ARRAY and MAP case, with the final false, computes the type-only predicate |
| TypeCoercions.TypeCoercion.FieldsAreTypeOnly | trino-deploy-main/src/main/java/io/trino/type/TypeCoercion.java:189-196 | the field loop finds a coercion type-only exactly when every field's is |
| TypeCoercions.TypeCoercion.ParametersAreTypeOnly | trino-deploy-main/src/main/java/io/trino/type/TypeCoercion.java:202-211 | the parameter loop finds a coercion type-only exactly when every parameter's is |
| TypeCoercions.FromUnknown | trino-deploy-main/src/main/java/io/trino/type/TypeCoercion.java:416-449 | unknown coerces to the bases it names alone, and to varchar(0), char(0) and decimal(1,0); every result has the requested base |
| TypeCoercions.FromTinyint | trino-deploy-main/src/main/java/io/trino/type/TypeCoercion.java:462-489 | tinyint widens to smallint, integer, bigint, real, double and decimal(3,0), and to the text types only when comparing; every result has the requested base |
| TypeCoercions.FromSmallint | trino-deploy-main/src/main/java/io/trino/type/TypeCoercion.java:490-516 | smallint widens to integer, bigint, real, double and decimal(5,0), and to the text types only when comparing; every result has the requested base |
| TypeCoercions.FromInteger | trino-deploy-main/src/main/java/io/trino/type/TypeCoercion.java:517-540 | integer widens to bigint, real, double and decimal(10,0), and to the text types only when comparing; every result has the requested base |
| TypeCoercions.FromBigint | trino-deploy-main/src/main/java/io/trino/type/TypeCoercion.java:541-562 | bigint widens to real, double and decimal(19,0), and to the text types only when comparing; every result has the requested base |
| TypeCoercions.FromReal | trino-deploy-main/src/main/java/io/trino/type/TypeCoercion.java:563-583 | real widens to double and decimal(10,0), and to the text types only when comparing; every result has the requested base |
| TypeCoercions.FromDouble | trino-deploy-main/src/main/java/io/trino/type/TypeCoercion.java:585-603 | double coerces to decimal(38,4), and to the text types only when comparing; every result has the requested base |
| TypeCoercions.FromDate | trino-deploy-main/src/main/java/io/trino/type/TypeCoercion.java:624-638 | date coerces to timestamp(0), timestamp(3) with time zone and the text types; every result has the requested base |
| TypeCoercions.FromTime | trino-deploy-main/src/main/java/io/trino/type/TypeCoercion.java:639-651 | time coerces to time with time zone and the text types; every result has the requested base |
| TypeCoercions.FromTimestamp | trino-deploy-main/src/main/java/io/trino/type/TypeCoercion.java:652-669 | timestamp(p) coerces to timestamp(p) with time zone, integer and the text types; every result has the requested base |
| TypeCoercions.FromVarchar | trino-deploy-main/src/main/java/io/trino/type/TypeCoercion.java:680-715 | varchar coerces to char of its bound capped at the maximum length, the regexp, JSON path and code-points types, and outside comparisons to a decimal for each numeric base; every result has the requested base or is that decimal |
| TypeCoercions.FromVarbinary | trino-deploy-main/src/main/java/io/trino/type/TypeCoercion.java:716-730 | varbinary coerces to decimal(38,4) and double only outside comparisons; every result has the requested base |
| TypeCoercions.FromChar | trino-deploy-main/src/main/java/io/trino/type/TypeCoercion.java:731-786 | char never coerces to varchar; it coerces to the regexp, JSON path, code-points and uuid types, and outside comparisons to the numeric types; every result has the requested base |
| Blocks.IdsWindow | trino-deploy-spi/src/main/java/io/trino/spi/block/DictionaryBlock.java:537-540 | a dictionary block's ids window has one id per position, each naming an entry of the dictionary |
| Blocks.ValuesFrom | trino-deploy-spi/src/main/java/io/trino/spi/block/AbstractArrayBlock.java:160-162 | a run of positions has as many values as its length |
| Blocks.ValuesFromAt | trino-deploy-spi/src/main/java/io/trino/spi/block/AbstractArrayBlock.java:160-162 | element k of a run is the value at the run's start plus k |
| Blocks.Values | trino-deploy-spi/src/main/java/io/trino/spi/block/DictionaryBlock.java:216-220 | a block has one value per position |
| Blocks.DistinctFacts | trino-deploy-spi/src/main/java/io/trino/spi/block/DictionaryBlock.java:605-613 | first-occurrence numbering keeps every id once, keeps exactly the ids present, never grows and is the identity on ids without repeats |
| Blocks.DistinctBounded | trino-deploy-spi/src/main/java/io/trino/spi/block/DictionaryBlock.java:605-613 | the distinct ids stay within the dictionary's range |
| Blocks.IndexOf | trino-deploy-spi/src/main/java/io/trino/spi/block/DictionaryBlock.java:606-612 | the index found holds the element sought |
| Blocks.IndexOfUnique | trino-deploy-spi/src/main/java/io/trino/spi/block/DictionaryBlock.java:606-612 | in a sequence without repeats, the index found is the only one |
| Blocks.Renumbered | trino-deploy-spi/src/main/java/io/trino/spi/block/DictionaryBlock.java:620-628 | renumbering keeps one new id per position |
| Blocks.RenumberedFacts | trino-deploy-spi/src/main/java/io/trino/spi/block/DictionaryBlock.java:620-628 | each new id is in range and names, in the distinct ids, the old id of that position |
| Blocks.MappedIds | trino-deploy-spi/src/main/java/io/trino/spi/block/DictionaryBlock.java:394-399 | the positions to copy are resolved to the dictionary ids of the given positions, all in range |
| Blocks.NewOffsets | trino-deploy-spi/src/main/java/io/trino/spi/block/AbstractArrayBlock.java:60-61 | the new offsets have one entry more than the positions copied and start at 0 |
| Blocks.NewOffsetsStep | trino-deploy-spi/src/main/java/io/trino/spi/block/AbstractArrayBlock.java:65-77 | each new offset grows by the copied entry's length, which is 0 for a null entry when the block has a null array |
| Blocks.NewOffsetsBounded | trino-deploy-spi/src/main/java/io/trino/spi/block/AbstractArrayBlock.java:65-77 | the new offsets never decrease and stay non-negative |
| Blocks.NewOffsetsMonotone | trino-deploy-spi/src/main/java/io/trino/spi/block/AbstractArrayBlock.java:65-77 | the new offsets are sorted throughout |
| Blocks.Range | trino-deploy-spi/src/main/java/io/trino/spi/block/AbstractArrayBlock.java:78-80 | the run of element indices from a start holds consecutive indices |
| Blocks.ElementPositions | trino-deploy-spi/src/main/java/io/trino/spi/block/AbstractArrayBlock.java:64-82 | every gathered element index lies in the element block |
| Blocks.ElementPositionsLength | trino-deploy-spi/src/main/java/io/trino/spi/block/AbstractArrayBlock.java:64-83 | the gathered element indices are exactly as many as the last new offset |
| Blocks.CopiedArray | trino-deploy-spi/src/main/java/io/trino/spi/block/AbstractArrayBlock.java:83-84 | the new array block is well formed and has one entry per position copied |
| Blocks.RenumberedDictionary | trino-deploy-spi/src/main/java/io/trino/spi/block/DictionaryBlock.java:421-428 | the new dictionary block with renumbered ids is well formed and has one entry per position copied |
| Blocks.RenumberedValueAt | trino-deploy-spi/src/main/java/io/trino/spi/block/DictionaryBlock.java:421-428 | entry i of the renumbered dictionary block is the compacted dictionary entry its new id names |
| Blocks.CopyPositions | trino-deploy-spi/src/main/java/io/trino/spi/block/DictionaryBlock.java:389-431 | copying positions always gives a well-formed block with one position per position asked for |
| Blocks.ElementPositionsAt | trino-deploy-spi/src/main/java/io/trino/spi/block/AbstractArrayBlock.java:72-80 | element k of copied entry i sits at new offset i plus k and comes from the entry's own start plus k |
| Blocks.ElementPositionsInit | trino-deploy-spi/src/main/java/io/trino/spi/block/AbstractArrayBlock.java:65-82 | adding one more position keeps the element indices gathered for the earlier ones |
| Blocks.ElementPositionsLast | trino-deploy-spi/src/main/java/io/trino/spi/block/AbstractArrayBlock.java:72-80 | the elements of the last position copied follow those of the others |
| Blocks.ElementPositionsSnoc | trino-deploy-spi/src/main/java/io/trino/spi/block/AbstractArrayBlock.java:65-82 | the gathering of the loop extends one position at a time, offsets with it |
| Blocks.CopyPositionsValueAt | trino-deploy-spi/src/main/java/io/trino/spi/block/DictionaryBlock.java:389-431 | position i of the copy holds the value of position ps[i] of the source |
| Blocks.DictCopyPositionsValueAt | trino-deploy-spi/src/main/java/io/trino/spi/block/DictionaryBlock.java:389-431 | for a dictionary block, in all three strategies, position i of the copy holds the value of position ps[i] |
| Blocks.CopiedArrayValueAt | trino-deploy-spi/src/main/java/io/trino/spi/block/AbstractArrayBlock.java:55-85 | for an array block, position i of the copy holds the value of position ps[i] |
| Blocks.CopiedArrayEntry | trino-deploy-spi/src/main/java/io/trino/spi/block/AbstractArrayBlock.java:65-84 | entry i of the array copy holds entry ps[i] when its run of copied elements does |
| Blocks.CopiedArrayShape | trino-deploy-spi/src/main/java/io/trino/spi/block/AbstractArrayBlock.java:65-84 | entry i of the array copy has entry ps[i]'s null flag and length and starts at new offset i |
| Blocks.CopiedEntry | trino-deploy-spi/src/main/java/io/trino/spi/block/AbstractArrayBlock.java:72-83 | the copied elements of entry i are the source entry's elements |
| Blocks.EntryRun | trino-deploy-spi/src/main/java/io/trino/spi/block/AbstractArrayBlock.java:72-80 | entry i of the copy occupies a run of gathered element indices starting at the entry's first element |
| Blocks.GatheredRun | trino-deploy-spi/src/main/java/io/trino/spi/block/AbstractArrayBlock.java:83 | a run of gathered values equals the run of source values it was gathered from |
| Blocks.CopyPositionsValues | trino-deploy-spi/src/main/java/io/trino/spi/block/DictionaryBlock.java:389-431 | copying positions keeps the values of the positions asked for, in the order given |
| Blocks.IsNullMayHaveNull | trino-deploy-spi/src/main/java/io/trino/spi/block/DictionaryBlock.java:465-475 | a null position makes the block report that it may hold nulls |
| Blocks.IsNullIffNullValue | trino-deploy-spi/src/main/java/io/trino/spi/block/DictionaryBlock.java:469-475 | isNull reports exactly the positions whose value is null, through every level of nesting |
| Blocks.IdRange | trino-deploy-spi/src/main/java/io/trino/spi/block/DictionaryBlock.java:605-613 | the ids 0 to k-1 form a set of k elements |
| Blocks.DistinctCount | trino-deploy-spi/src/main/java/io/trino/spi/block/DictionaryBlock.java:576-586 | ids into a dictionary of k entries have at most k distinct values, and exactly k when every entry is referenced |
| Blocks.IncreasingGap | trino-deploy-spi/src/main/java/io/trino/spi/block/DictionaryBlock.java:423-428 | strictly increasing ids grow by at least one per step |
| Blocks.DistinctOfNoDuplicates | trino-deploy-spi/src/main/java/io/trino/spi/block/DictionaryBlock.java:411-424 | ids without repeats are their own distinct ids |
| Blocks.SequentialIdsAreIdentity | trino-deploy-spi/src/main/java/io/trino/spi/block/DictionaryBlock.java:100-112 | strictly increasing ids that reference all k entries of a k-entry dictionary are 0, 1, ..., k-1 |
| Blocks.RenumberedCount | trino-deploy-spi/src/main/java/io/trino/spi/block/DictionaryBlock.java:421-428 | renumbering keeps the number of distinct ids |
| Blocks.RenumberedHits | trino-deploy-spi/src/main/java/io/trino/spi/block/DictionaryBlock.java:421-428 | every new id is used, so the renumbered block references its whole dictionary |
| Blocks.RenumberedOfNoDuplicates | trino-deploy-spi/src/main/java/io/trino/spi/block/DictionaryBlock.java:620-628 | ids without repeats renumber to 0, 1, 2, ..., which increase strictly |
| Blocks.CopyPositionsHonest | trino-deploy-spi/src/main/java/io/trino/spi/block/DictionaryBlock.java:421-428 | copying positions records only true compaction and sequential-id statistics |
| Blocks.CopyPositionsKind | trino-deploy-spi/src/main/java/io/trino/spi/block/AbstractArrayBlock.java:55-85 | copying a flat block gives a flat block and copying an array block an array block |
| Blocks.EncodingName | trino-deploy-spi/src/main/java/io/trino/spi/block/DictionaryBlock.java:382-386 | every valid block reports one of the fifteen built-in encoding names, a dictionary block the dictionary encoding's; EncodingNameRegistered proves the manager finds it |
| Blocks.UniqueIds | trino-deploy-spi/src/main/java/io/trino/spi/block/DictionaryBlock.java:551-558 | never the -1 of a count not yet computed, and the cached count whenever one is known; UniqueIdsBounds bounds it by the positions and the dictionary |
| BlockOps.NewDictionaryBlock | trino-deploy-spi/src/main/java/io/trino/spi/block/DictionaryBlock.java:79-113 | the constructor fails for a negative position count, for too few ids, for a compacted nested dictionary and for sequential ids without compaction; otherwise it records the compacted statistics or none, and position p holds the dictionary entry of id idsOffset + p |
| BlockOps.GetId | trino-deploy-spi/src/main/java/io/trino/spi/block/DictionaryBlock.java:560-569 | an id is returned exactly for a valid position, it is the stored id and its dictionary entry is the position's value |
| BlockOps.DictIsNull | trino-deploy-spi/src/main/java/io/trino/spi/block/DictionaryBlock.java:470-475 | defined exactly on valid positions, and true exactly when the position's value is null |
| BlockOps.ArrIsNull | trino-deploy-spi/src/main/java/io/trino/spi/block/AbstractArrayBlock.java:209-231 | defined exactly on valid positions, otherwise "position is not valid"; true exactly when the entry is null, never when there is no null array |
| BlockOps.GetObject | trino-deploy-spi/src/main/java/io/trino/spi/block/AbstractArrayBlock.java:152-163 | only Block.class and a valid position are accepted; the result is the entry's elements as a region of the element block |
| BlockOps.RegionValues | trino-deploy-spi/src/main/java/io/trino/spi/block/AbstractArrayBlock.java:87-99 | a region view of a run holds the run's values |
| BlockOps.GetRegion | trino-deploy-spi/src/main/java/io/trino/spi/block/DictionaryBlock.java:433-442 | a valid region gives a view sharing ids, dictionary and source id with a shifted ids offset, or the block itself for the full length; an array region shares offsets, null flags and elements; an invalid region fails |
| BlockOps.GetRegionValues | trino-deploy-spi/src/main/java/io/trino/spi/block/AbstractArrayBlock.java:87-99 | a region view holds the values of the region |
| BlockOps.Base | trino-deploy-spi/src/main/java/io/trino/spi/block/DictionaryBlock.java:660-667 | the bottom of a chain of nested dictionaries is a well-formed block that is not a dictionary block |
| BlockOps.Resolve | trino-deploy-spi/src/main/java/io/trino/spi/block/DictionaryBlock.java:661-666 | an id resolved through every level is a position of the innermost dictionary |
| BlockOps.ResolveValue | trino-deploy-spi/src/main/java/io/trino/spi/block/DictionaryBlock.java:661-666 | resolving an id through every level reaches an entry holding the same value |
| BlockOps.Unnest | trino-deploy-spi/src/main/java/io/trino/spi/block/DictionaryBlock.java:649-670 | unnesting gives a dictionary block of the same size over a dictionary that is not nested, and the block itself when nothing is nested |
| BlockOps.UnnestValues | trino-deploy-spi/src/main/java/io/trino/spi/block/DictionaryBlock.java:649-670 | unnest keeps every logical value |
| BlockOps.UnnestValueAt | trino-deploy-spi/src/main/java/io/trino/spi/block/DictionaryBlock.java:655-669 | unnest keeps the value of each position |
| BlockOps.ReferencedIds | trino-deploy-spi/src/main/java/io/trino/spi/block/DictionaryBlock.java:605-613 | the ids compact copies are the distinct referenced ids in order of first reference, each an entry of the dictionary |
| BlockOps.CompactedBlock | trino-deploy-spi/src/main/java/io/trino/spi/block/DictionaryBlock.java:620-641 | the compacted block is a well-formed dictionary block of the same size |
| BlockOps.Compact | trino-deploy-spi/src/main/java/io/trino/spi/block/DictionaryBlock.java:588-647 | compact gives a compact dictionary block of the same size over a dictionary that is not nested, and the block itself when it was compact already |
| BlockOps.CompactedBlockValueAt | trino-deploy-spi/src/main/java/io/trino/spi/block/DictionaryBlock.java:620-641 | the compacted block keeps each position's value |
| BlockOps.CompactValueAt | trino-deploy-spi/src/main/java/io/trino/spi/block/DictionaryBlock.java:588-647 | compact keeps every logical value |
| BlockOps.CompactedBlockShape | trino-deploy-spi/src/main/java/io/trino/spi/block/DictionaryBlock.java:605-641 | a copying compaction renumbers the ids in first-occurrence order over a dictionary holding exactly the referenced entries in that order |
| BlockOps.CompactOffsets | trino-deploy-spi/src/main/java/io/trino/spi/block/AbstractArrayBlock.java:142 | the offsets of the region are rebased to start at 0 |
| BlockOps.CopyRegion | trino-deploy-spi/src/main/java/io/trino/spi/block/DictionaryBlock.java:445-462 | an invalid region fails with an index error; a copy has the region's length and is well formed |
| BlockOps.RegionIds | trino-deploy-spi/src/main/java/io/trino/spi/block/DictionaryBlock.java:459 | the copied ids are the stored ids of the region, each naming a dictionary entry |
| BlockOps.DictCopyRegion | trino-deploy-spi/src/main/java/io/trino/spi/block/DictionaryBlock.java:445-462 | the corrected dictionary copy is well formed with the region's length |
| BlockOps.ArrCopyRegion | trino-deploy-spi/src/main/java/io/trino/spi/block/AbstractArrayBlock.java:132-150 | the array copy is well formed with the region's length |
| BlockOps.RebasedArray | trino-deploy-spi/src/main/java/io/trino/spi/block/AbstractArrayBlock.java:138-149 | the rebased array block keeps each entry's null flag and length, with its start shifted by the region's first offset |
| BlockOps.RebasedFacts | trino-deploy-spi/src/main/java/io/trino/spi/block/AbstractArrayBlock.java:138-149 | the rebased array block is well formed and keeps null flags and lengths |
| BlockOps.RebasedValid | trino-deploy-spi/src/main/java/io/trino/spi/block/AbstractArrayBlock.java:138-149 | the rebased array block is well formed |
| BlockOps.RebasedOffsets | trino-deploy-spi/src/main/java/io/trino/spi/block/AbstractArrayBlock.java:142 | rebased offsets of a sorted run are sorted and lie within the copied elements |
| BlockOps.RebasedEntry | trino-deploy-spi/src/main/java/io/trino/spi/block/AbstractArrayBlock.java:138-149 | entry i of the rebased block has entry position + i's null flag and length |
| BlockOps.ShiftedRun | trino-deploy-spi/src/main/java/io/trino/spi/block/AbstractArrayBlock.java:140 | a copied element region holds the same runs of values, shifted |
| BlockOps.CopyRegionValues | trino-deploy-spi/src/main/java/io/trino/spi/block/DictionaryBlock.java:445-462 | for truthful statistics, copyRegion succeeds on every valid region and keeps its values |
| BlockOps.DictCopyRegionValues | trino-deploy-spi/src/main/java/io/trino/spi/block/DictionaryBlock.java:445-462 | the corrected dictionary copy succeeds and keeps the region's values in each of its three branches |
| BlockOps.UnwrappedRegionValueAt | trino-deploy-spi/src/main/java/io/trino/spi/block/DictionaryBlock.java:454-458 | unwrapping the outer layer keeps each position's value |
| BlockOps.CompactedRegionValueAt | trino-deploy-spi/src/main/java/io/trino/spi/block/DictionaryBlock.java:459-461 | compacting a dictionary block over the copied ids keeps each position's value |
| BlockOps.InnerValueAt | trino-deploy-spi/src/main/java/io/trino/spi/block/DictionaryBlock.java:459-460 | the block over the copied ids holds the region's values |
| BlockOps.SequentialWindow | trino-deploy-spi/src/main/java/io/trino/spi/block/DictionaryBlock.java:450-452 | truthful sequential-id statistics with every entry referenced mean the ids are 0, 1, ..., so the dictionary region at the first id is the region |
| BlockOps.CopiedDictionaryRegionValues | trino-deploy-spi/src/main/java/io/trino/spi/block/DictionaryBlock.java:450-452 | the first branch, a region of the dictionary starting at the first id, keeps the region's values |
| BlockOps.WindowRunValues | trino-deploy-spi/src/main/java/io/trino/spi/block/DictionaryBlock.java:450-452 | positions whose ids are consecutive take their values from the dictionary run |
| BlockOps.ArrCopyRegionValues | trino-deploy-spi/src/main/java/io/trino/spi/block/AbstractArrayBlock.java:132-150 | the array copy succeeds and keeps the region's values |
| BlockOps.ArrRegionInRaw | trino-deploy-spi/src/main/java/io/trino/spi/block/AbstractArrayBlock.java:138-140 | the region's element run lies within the element block |
| BlockOps.ArrCopiedRegionValues | trino-deploy-spi/src/main/java/io/trino/spi/block/AbstractArrayBlock.java:138-149 | the array copy is the rebased array over the copied elements, and it keeps the region's values |
| BlockOps.RebasedValues | trino-deploy-spi/src/main/java/io/trino/spi/block/AbstractArrayBlock.java:138-149 | the rebased array block holds the region's values |
| BlockOps.RebasedValueAt | trino-deploy-spi/src/main/java/io/trino/spi/block/AbstractArrayBlock.java:138-149 | an entry whose elements repeat another entry's, shifted, has the same value |
| BlockOps.DictCopyRegionAsWritten | trino-deploy-spi/src/main/java/io/trino/spi/block/DictionaryBlock.java:445-462 | as written, the first branch reads getId(position), so the empty region at the end of the block fails although the region check admits it; elsewhere it agrees with the corrected copy |
| BlockOps.OnePositionDictionary | trino-deploy-spi/src/main/java/io/trino/spi/block/DictionaryBlock.java:49-52 | a one-position dictionary block over a one-value leaf is well formed |
| BlockOps.EmptyRegionAtEnd | trino-deploy-spi/src/main/java/io/trino/spi/block/DictionaryBlock.java:445-452 | copyRegion(1, 0) of a one-position dictionary block is a valid region, fails as written and gives the empty block when corrected |
| BlockOps.GetPositions | trino-deploy-spi/src/main/java/io/trino/spi/block/DictionaryBlock.java:478-498 | an out-of-range array slice fails with an index error and an invalid position with an illegal argument; otherwise the result is a dictionary block over the same dictionary and source id, never marked sequential |
| BlockOps.GetPositionsValues | trino-deploy-spi/src/main/java/io/trino/spi/block/DictionaryBlock.java:478-498 | getPositions holds the values of the positions named, in the order given |
| BlockOps.MappedValueAt | trino-deploy-spi/src/main/java/io/trino/spi/block/DictionaryBlock.java:488-489 | resolving the positions to ids keeps their values |
| BlockOps.GetPositionsHonest | trino-deploy-spi/src/main/java/io/trino/spi/block/DictionaryBlock.java:483-496 | the compacted flag getPositions sets is truthful: every dictionary entry is referenced |
| BlockOps.GetSingleValueBlock | trino-deploy-spi/src/main/java/io/trino/spi/block/AbstractArrayBlock.java:172-187 | an invalid position fails with "position is not valid"; otherwise the result is a one-entry array block with the entry's null flag |
| BlockOps.GetSingleValueBlockValue | trino-deploy-spi/src/main/java/io/trino/spi/block/AbstractArrayBlock.java:172-187 | for truthful statistics the single-value block succeeds and holds the value of the position |
| BlockOps.IsCompactMeansAllReferenced | trino-deploy-spi/src/main/java/io/trino/spi/block/DictionaryBlock.java:576-586 | for truthful statistics, isCompact holds exactly when the dictionary is not nested and every entry is referenced |
| BlockOps.UniqueIdsBounds | trino-deploy-spi/src/main/java/io/trino/spi/block/DictionaryBlock.java:551-558 | uniqueIds never exceeds the number of positions or the dictionary size |
| BlockOps.SequentialIdsAreUnique | trino-deploy-spi/src/main/java/io/trino/spi/block/DictionaryBlock.java:542-548 | truthful sequential ids never repeat an id |
| BlockOps.BaseHonest | trino-deploy-spi/src/main/java/io/trino/spi/block/DictionaryBlock.java:660-667 | the innermost dictionary of a truthful block is truthful |
| BlockOps.CompactHonest | trino-deploy-spi/src/main/java/io/trino/spi/block/DictionaryBlock.java:588-647 | compact records only truthful statistics |
| BlockOps.CompactedBlockHonest | trino-deploy-spi/src/main/java/io/trino/spi/block/DictionaryBlock.java:629-641 | the compacted flag and the sequential flag compact sets are truthful |
| BlockOps.CopyRegionHonest | trino-deploy-spi/src/main/java/io/trino/spi/block/DictionaryBlock.java:445-462 | copyRegion records only truthful statistics |
| BlockOps.DictCopyRegionHonest | trino-deploy-spi/src/main/java/io/trino/spi/block/DictionaryBlock.java:445-462 | the dictionary copy records only truthful statistics |
| BlockOps.ArrCopyRegionHonest | trino-deploy-spi/src/main/java/io/trino/spi/block/AbstractArrayBlock.java:132-150 | the array copy records only truthful statistics |
| BlockSizes.AllTrue | trino-deploy-spi/src/main/java/io/trino/spi/block/DictionaryBlock.java:233-240 | the mask of every position selects each of them |
| BlockSizes.RegionMask | trino-deploy-spi/src/main/java/io/trino/spi/block/DictionaryBlock.java:342-345 | the region's mask selects exactly the positions of the region |
| BlockSizes.IdsMask | trino-deploy-spi/src/main/java/io/trino/spi/block/DictionaryBlock.java:352-357 | the used array marks exactly the dictionary entries that some selected position references |
| BlockSizes.ElementMask | trino-deploy-spi/src/main/java/io/trino/spi/block/AbstractArrayBlock.java:117-128 | the used array marks exactly the elements some selected entry covers |
| BlockSizes.CompactSize | trino-deploy-spi/src/main/java/io/trino/spi/block/DictionaryBlock.java:230-275 | calculateCompactSize's size is at least four bytes per position |
| BlockSizes.SizeInBytes | trino-deploy-spi/src/main/java/io/trino/spi/block/DictionaryBlock.java:221-227 | a dictionary block's size is at least four bytes per position |
| BlockSizes.CompactSizeStats | trino-deploy-spi/src/main/java/io/trino/spi/block/DictionaryBlock.java:230-275 | the computed size depends only on the ids and the dictionary, not on the cached statistics |
| BlockSizes.LogicalSizeUpToStats | trino-deploy-spi/src/main/java/io/trino/spi/block/DictionaryBlock.java:308-330 | the logical size depends only on the ids and the dictionary, not on the cached statistics |
| BlockSizes.GetPositionsSizeInBytes | trino-deploy-spi/src/main/java/io/trino/spi/block/DictionaryBlock.java:348-360 | flags not covering the block exactly are rejected; otherwise the size of the selected positions |
| BlockSizes.GetRegionSizeInBytes | trino-deploy-spi/src/main/java/io/trino/spi/block/AbstractArrayBlock.java:101-111 | an invalid region fails with an index error, otherwise the region's size; the dictionary case is corrected to check the same way |
| BlockSizes.RegionSizeAsWritten | trino-deploy-spi/src/main/java/io/trino/spi/block/DictionaryBlock.java:332-346 | as written, without the region check: a valid region gets its size, a negative length gets four bytes times the length, and a positive invalid region fails in getId |
| BlockSizes.NegativeRegionSize | trino-deploy-spi/src/main/java/io/trino/spi/block/DictionaryBlock.java:332-346 | getRegionSizeInBytes(0, -1) of a one-position dictionary block answers -4 as written and fails with an index error when corrected |
| BlockSizes.GetEstimatedDataSizeForStats | trino-deploy-spi/src/main/java/io/trino/spi/block/AbstractArrayBlock.java:189-207 | defined exactly on valid positions, with "position is not valid" for an array block; the value is the position's estimated data size |
| BlockSizes.PositionsSizeNone | trino-deploy-spi/src/main/java/io/trino/spi/block/AbstractArrayBlock.java:113-130 | selecting no position has size 0 |
| BlockSizes.SelectedSumNone | trino-deploy-spi/src/main/java/io/trino/spi/block/AbstractArrayBlock.java:113-130 | summing no selected size gives 0 |
| BlockSizes.CountTrueNone | trino-deploy-spi/src/main/java/io/trino/spi/block/AbstractArrayBlock.java:118-121 | counting no selected position gives 0 |
| BlockSizes.PositionsSizeMonotone | trino-deploy-spi/src/main/java/io/trino/spi/block/DictionaryBlock.java:348-360 | selecting more positions never makes getPositionsSizeInBytes smaller |
| BlockSizes.IdsMaskMonotone | trino-deploy-spi/src/main/java/io/trino/spi/block/DictionaryBlock.java:352-357 | selecting more positions marks at least the same dictionary entries |
| BlockSizes.ElementMaskMonotone | trino-deploy-spi/src/main/java/io/trino/spi/block/AbstractArrayBlock.java:119-128 | selecting more entries marks at least the same elements |
| BlockSizes.SelectedSumMonotone | trino-deploy-spi/src/main/java/io/trino/spi/block/AbstractArrayBlock.java:113-130 | selecting more leaf positions never sums less |
| BlockSizes.CountTrueMonotone | trino-deploy-spi/src/main/java/io/trino/spi/block/AbstractArrayBlock.java:118-121 | selecting more positions never counts fewer |
| BlockSizes.WholeRegionSize | trino-deploy-spi/src/main/java/io/trino/spi/block/DictionaryBlock.java:335-340 | the size of the whole block as a region is its size |
| BlockSizes.HonestSizeInBytes | trino-deploy-spi/src/main/java/io/trino/spi/block/DictionaryBlock.java:102-106 | for truthful statistics, the size the compacted-flag constructor fills in is the size calculateCompactSize would compute |
| BlockSizes.NullHasNoDataSize | trino-deploy-spi/src/main/java/io/trino/spi/block/AbstractArrayBlock.java:194-196 | a null position has estimated data size 0 |
| BlockSizes.CompactSizeOfCompact | trino-deploy-spi/src/main/java/io/trino/spi/block/DictionaryBlock.java:262-265 | when every entry of a leaf dictionary is referenced, the size is the whole dictionary's plus four bytes per position |
| BlockSizes.PositionsSize | trino-deploy-spi/src/main/java/io/trino/spi/block/DictionaryBlock.java:348-360 | at least four bytes per selected id of a dictionary block or five per selected entry of an array block; PositionsSizeNone and PositionsSizeMonotone state its other bounds |
| BlockSizes.CompactedDictionarySize | trino-deploy-spi/src/main/java/io/trino/spi/block/DictionaryBlock.java:280-287 | together with four bytes per position it makes up the block's size, so it is never negative |
| BlockSizes.RegionSize | trino-deploy-spi/src/main/java/io/trino/spi/block/DictionaryBlock.java:332-346 | at least four bytes per position of a dictionary region or five per entry of an array region; WholeRegionSize relates it to the size |
| DictionaryBlocks.Uncached | trino-deploy-spi/src/main/java/io/trino/spi/block/DictionaryBlock.java:41-45 | the cached statistics are forgotten only when computed, so a block and its computed form agree |
| DictionaryBlocks.DictionaryBlock.Model | trino-deploy-spi/src/main/java/io/trino/spi/block/DictionaryBlock.java:36-47 | the object's block value has its ids offset, position count, dictionary, ids and source id |
| DictionaryBlocks.DictionaryBlock.constructor | trino-deploy-spi/src/main/java/io/trino/spi/block/DictionaryBlock.java:79-113 | a block built after the constructor's checks is well formed, is the value the checked constructor builds, and has no logical size yet |
| DictionaryBlocks.DictionaryBlock.IdAt | trino-deploy-spi/src/main/java/io/trino/spi/block/DictionaryBlock.java:566-569 | the unchecked id of a position is the window's id there and names a dictionary entry |
| DictionaryBlocks.DictionaryBlock.CalculateCompactSize | trino-deploy-spi/src/main/java/io/trino/spi/block/DictionaryBlock.java:230-275 | the loop sets uniqueIds to the number of distinct ids, isSequentialIds to whether they strictly increase over a dictionary that is not nested, and sizeInBytes to the compact size; nothing else changes |
| DictionaryBlocks.DictionaryBlock.GetSizeInBytes | trino-deploy-spi/src/main/java/io/trino/spi/block/DictionaryBlock.java:221-227 | the block's size, computed at most once; the block is unchanged when it was already known |
| DictionaryBlocks.DictionaryBlock.GetUniqueIds | trino-deploy-spi/src/main/java/io/trino/spi/block/DictionaryBlock.java:551-558 | the number of distinct ids, computed at most once |
| DictionaryBlocks.DictionaryBlock.IsSequentialIds | trino-deploy-spi/src/main/java/io/trino/spi/block/DictionaryBlock.java:542-549 | once computed, whether the ids strictly increase over a dictionary that is not nested; for a block built compacted, the flag it was given |
| DictionaryBlocks.DictionaryBlock.IsCompact | trino-deploy-spi/src/main/java/io/trino/spi/block/DictionaryBlock.java:576-586 | never for a nested dictionary, otherwise whether every entry is referenced; the statistics are computed when they were not |
| DictionaryBlocks.DictionaryBlock.GetCompactedDictionarySizeInBytes | trino-deploy-spi/src/main/java/io/trino/spi/block/DictionaryBlock.java:280-287 | the computed size without the four bytes per id |
| DictionaryBlocks.DictionaryBlock.GetLogicalSizeInBytes | trino-deploy-spi/src/main/java/io/trino/spi/block/DictionaryBlock.java:308-330 | the summed size of every position's own entry, computed once and then answered from the field |
| DictionaryBlocks.DictionaryBlock.GetRegionSizeInBytes | trino-deploy-spi/src/main/java/io/trino/spi/block/DictionaryBlock.java:332-346 | with the region check added, the region size of the block value; the whole block answers its cached size |
| DictionaryBlocks.DictionaryBlock.GetPositionsSizeInBytes | trino-deploy-spi/src/main/java/io/trino/spi/block/DictionaryBlock.java:348-360 | the size of the selected positions of the block value, or the error for a mask of the wrong length |
| DictionaryBlocks.DictionaryBlock.GetCompactedDictionaryPositionsSizeInBytes | trino-deploy-spi/src/main/java/io/trino/spi/block/DictionaryBlock.java:289-305 | the selected entries' size through every nested dictionary, without their ids |
| DictionaryBlocks.DictionaryBlock.GetRegion | trino-deploy-spi/src/main/java/io/trino/spi/block/DictionaryBlock.java:433-442 | an invalid region fails with an index error; the full length returns the block itself; otherwise a fresh block whose value is the region view |
| DictionaryBlocks.DictionaryBlock.Unnest | trino-deploy-spi/src/main/java/io/trino/spi/block/DictionaryBlock.java:649-670 | the block itself when nothing is nested, otherwise a fresh block whose value is the unnested block |
| DictionaryBlocks.DictionaryBlock.Compact | trino-deploy-spi/src/main/java/io/trino/spi/block/DictionaryBlock.java:588-647 | the result is the block itself or a fresh block, and its value is compact's result on the block value |
| DictionaryBlocks.DictionaryBlock.CompactReferenced | trino-deploy-spi/src/main/java/io/trino/spi/block/DictionaryBlock.java:598-646 | the block itself when every entry is referenced, otherwise a fresh compacted block |
| DictionaryBlocks.DictionaryBlock.CopyPositions | trino-deploy-spi/src/main/java/io/trino/spi/block/DictionaryBlock.java:389-431 | an out-of-range array slice fails with an index error and an invalid position with an illegal argument; otherwise the copy of the selected positions of the block value |
| DictionaryBlocks.DictionaryBlock.GetPositions | trino-deploy-spi/src/main/java/io/trino/spi/block/DictionaryBlock.java:478-498 | the object form agrees with getPositions on the block value, both in its errors and in the fresh block it builds |
| DictionaryBlocks.DictionaryBlock.CopyRegion | trino-deploy-spi/src/main/java/io/trino/spi/block/DictionaryBlock.java:445-462 | an invalid region fails with an index error; otherwise the outcome of the corrected copyRegion on the block value |
| DictionaryBlocks.ComputedStats | trino-deploy-spi/src/main/java/io/trino/spi/block/DictionaryBlock.java:230-275 | once calculateCompactSize has run, the window, compact size and logical size are unchanged and the sequential flag is whether the ids strictly increase |
| DictionaryBlocks.MeasureCompact | trino-deploy-spi/src/main/java/io/trino/spi/block/DictionaryBlock.java:230-275 | calculateCompactSize on a block value gives the number of distinct ids, whether they are sequential and the compact size |
| DictionaryBlocks.ScanIds | trino-deploy-spi/src/main/java/io/trino/spi/block/DictionaryBlock.java:232-243 | the loop marks exactly the referenced entries, counts the distinct ids and finds whether they strictly increase |
| DictionaryBlocks.ScanCountStep | trino-deploy-spi/src/main/java/io/trino/spi/block/DictionaryBlock.java:239 | one more id adds one distinct id exactly when it was not seen |
| DictionaryBlocks.ScanIncreasingStep | trino-deploy-spi/src/main/java/io/trino/spi/block/DictionaryBlock.java:242-243 | one more id keeps the run increasing exactly when it is larger than the previous one |
| DictionaryBlocks.SumEntrySizes | trino-deploy-spi/src/main/java/io/trino/spi/block/DictionaryBlock.java:315-327 | the loop with its cache of seen sizes sums every position's entry size |
| DictionaryBlocks.CachedUpdate | trino-deploy-spi/src/main/java/io/trino/spi/block/DictionaryBlock.java:322-324 | filling in one more entry's size keeps the cache truthful |
| DictionaryBlocks.EntrySizes | trino-deploy-spi/src/main/java/io/trino/spi/block/DictionaryBlock.java:323 | one size per dictionary entry, each the size of that entry alone |
| DictionaryBlocks.DictRegionSize | trino-deploy-spi/src/main/java/io/trino/spi/block/DictionaryBlock.java:332-346 | the region size is the cached size for the whole block, otherwise the referenced entries plus four bytes per position |
| DictionaryBlocks.PartialRegionSize | trino-deploy-spi/src/main/java/io/trino/spi/block/DictionaryBlock.java:341-345 | the size of a region that is not the whole block |
| DictionaryBlocks.MarkRegion | trino-deploy-spi/src/main/java/io/trino/spi/block/DictionaryBlock.java:341-344 | the loop marks exactly the entries the region references |
| DictionaryBlocks.SelectedSize | trino-deploy-spi/src/main/java/io/trino/spi/block/DictionaryBlock.java:352-359 | the size of the selected positions of a dictionary block |
| DictionaryBlocks.SelectedCompactedSize | trino-deploy-spi/src/main/java/io/trino/spi/block/DictionaryBlock.java:289-305 | the selected entries' size after compacting |
| DictionaryBlocks.MarkSelected | trino-deploy-spi/src/main/java/io/trino/spi/block/DictionaryBlock.java:352-357 | the loop marks exactly the entries the selected positions reference |
| DictionaryBlocks.CountUsedPositions | trino-deploy-spi/src/main/java/io/trino/spi/block/DictionaryBlock.java:359 | the number of selected positions |
| DictionaryBlocks.UnnestIds | trino-deploy-spi/src/main/java/io/trino/spi/block/DictionaryBlock.java:655-667 | the loops give the innermost dictionary and every id resolved through all the levels |
| DictionaryBlocks.ResolveLevel | trino-deploy-spi/src/main/java/io/trino/spi/block/DictionaryBlock.java:662-665 | one level replaces each id by the nested dictionary's id at that position |
| DictionaryBlocks.RemapIds | trino-deploy-spi/src/main/java/io/trino/spi/block/DictionaryBlock.java:600-613 | the first loop of compact lists the referenced entries in first-occurrence order and maps each to its new index, -1 when unreferenced |
| DictionaryBlocks.RemappedIds | trino-deploy-spi/src/main/java/io/trino/spi/block/DictionaryBlock.java:620-628 | the second loop of compact replaces every id by its new index, which is the first-occurrence numbering |
| DictionaryBlocks.IndexesOfStep | trino-deploy-spi/src/main/java/io/trino/spi/block/DictionaryBlock.java:402-406 | a new id gets the next index and keeps the map truthful |
| DictionaryBlocks.RenumberIds | trino-deploy-spi/src/main/java/io/trino/spi/block/DictionaryBlock.java:398-409 | the hash-map loop gathers the distinct ids in first-occurrence order and numbers each position by its id's first occurrence |
| DictionaryBlocks.RenumberingStep | trino-deploy-spi/src/main/java/io/trino/spi/block/DictionaryBlock.java:400-409 | one iteration of the hash-map loop extends the numbering, appending the id when it is new |
| DictionaryBlocks.RenumberingSeen | trino-deploy-spi/src/main/java/io/trino/spi/block/DictionaryBlock.java:402-408 | an id already seen reuses its number |
| DictionaryBlocks.RenumberingNew | trino-deploy-spi/src/main/java/io/trino/spi/block/DictionaryBlock.java:403-408 | a new id is appended and gets the next number |
| DictionaryBlocks.RenumberingDone | trino-deploy-spi/src/main/java/io/trino/spi/block/DictionaryBlock.java:398-409 | after the loop, the gathered ids are the distinct ids and the new ids their numbering |
| DictionaryBlocks.IndexesOfAt | trino-deploy-spi/src/main/java/io/trino/spi/block/DictionaryBlock.java:402-406 | an id's place in the gather list is the number the first-occurrence numbering gives it |
| DictionaryBlocks.CopyDictionaryPositions | trino-deploy-spi/src/main/java/io/trino/spi/block/DictionaryBlock.java:389-431 | copyPositions on a block value: its range and position errors, and otherwise the model's copy |
| DictionaryBlocks.CopyDictionaryRegion | trino-deploy-spi/src/main/java/io/trino/spi/block/DictionaryBlock.java:445-462 | copyRegion on a block value: an invalid region fails with an index error, otherwise the corrected copy's outcome |
| DictionaryBlocks.CopyRenumbered | trino-deploy-spi/src/main/java/io/trino/spi/block/DictionaryBlock.java:398-430 | the gathered entries themselves when no entry repeats, otherwise a compacted dictionary block over them |
| DictionaryBlocks.PositionsBlock | trino-deploy-spi/src/main/java/io/trino/spi/block/DictionaryBlock.java:482-497 | the rest of getPositions agrees with getPositions on the block value |
| DictionaryBlocks.NewCompacted | trino-deploy-spi/src/main/java/io/trino/spi/block/DictionaryBlock.java:630-641 | the block compact builds is the compacted block of the model |
| DictionaryBlocks.CompactRegion | trino-deploy-spi/src/main/java/io/trino/spi/block/DictionaryBlock.java:459-461 | the last strategy of copyRegion is compact of a block over the region's ids |
| DictionaryBlocks.MapPositions | trino-deploy-spi/src/main/java/io/trino/spi/block/DictionaryBlock.java:394-397 | the ids of the selected positions, failing with "Invalid position in block" exactly when a position is out of range |
| DictionaryBlocks.AllReferenced | trino-deploy-spi/src/main/java/io/trino/spi/block/DictionaryBlock.java:494-496 | the last loop of getPositions finds whether every dictionary entry is referenced |
| DictionaryBlocks.AllIdsMask | trino-deploy-spi/src/main/java/io/trino/spi/block/DictionaryBlock.java:233-240 | the mask of every referenced entry is the ids mask of the whole window |
| ArrayBlocks.RangeSnoc | trino-deploy-spi/src/main/java/io/trino/spi/block/AbstractArrayBlock.java:78-80 | a run of element indices grows by its next index |
| ArrayBlocks.ValidStep | trino-deploy-spi/src/main/java/io/trino/spi/block/AbstractArrayBlock.java:66-67 | a position checked by the loop extends the checked prefix |
| ArrayBlocks.OffsetsStep | trino-deploy-spi/src/main/java/io/trino/spi/block/AbstractArrayBlock.java:69-76 | one iteration writes the next offset as the previous one plus the entry length |
| ArrayBlocks.PositionsStep | trino-deploy-spi/src/main/java/io/trino/spi/block/AbstractArrayBlock.java:78-80 | one iteration appends the entry's element indices |
| ArrayBlocks.NullsStep | trino-deploy-spi/src/main/java/io/trino/spi/block/AbstractArrayBlock.java:67-68 | one iteration sets the null flag exactly for a null entry of a block with a null array |
| ArrayBlocks.LoopStep | trino-deploy-spi/src/main/java/io/trino/spi/block/AbstractArrayBlock.java:65-82 | one iteration of the copyPositions loop keeps the offsets, the null flags and the element indices in step with the model |
| ArrayBlocks.InitialState | trino-deploy-spi/src/main/java/io/trino/spi/block/AbstractArrayBlock.java:60-64 | before the loop the offsets start at 0 and no element index is gathered |
| ArrayBlocks.FinalState | trino-deploy-spi/src/main/java/io/trino/spi/block/AbstractArrayBlock.java:83-84 | after the last position the arrays built describe the model's copy |
| ArrayBlocks.AppendRange | trino-deploy-spi/src/main/java/io/trino/spi/block/AbstractArrayBlock.java:78-80 | the inner loop appends exactly the element indices from start to end |
| ArrayBlocks.CopyEntry | trino-deploy-spi/src/main/java/io/trino/spi/block/AbstractArrayBlock.java:66-81 | one iteration fills the offset and null flag of its entry and appends its element indices |
| ArrayBlocks.EntryBounds | trino-deploy-spi/src/main/java/io/trino/spi/block/AbstractArrayBlock.java:72-74 | a non-null entry's element range is read from consecutive offsets |
| ArrayBlocks.GatherValues | trino-deploy-spi/src/main/java/io/trino/spi/block/AbstractArrayBlock.java:83-84 | the single gather on the element block and the new array block around it are the model's copy |
| ArrayBlocks.CopyEntries | trino-deploy-spi/src/main/java/io/trino/spi/block/AbstractArrayBlock.java:65-82 | the loop succeeds exactly when every selected position is valid, and then its arrays match the model |
| ArrayBlocks.CopyArrayPositions | trino-deploy-spi/src/main/java/io/trino/spi/block/AbstractArrayBlock.java:55-85 | an out-of-range slice fails with an index error and an invalid position with "position is not valid"; otherwise the result is the model's copy of the selected positions |
| ArrayBlocks.CoveredStep | trino-deploy-spi/src/main/java/io/trino/spi/block/AbstractArrayBlock.java:119-127 | one more selected entry marks exactly its own elements |
| ArrayBlocks.ArrayPositionsSizeInBytes | trino-deploy-spi/src/main/java/io/trino/spi/block/AbstractArrayBlock.java:113-130 | the nested loops compute getPositionsSizeInBytes of the model, including its check |
| ArrayBlocks.ArrEstimatedDataSize | trino-deploy-spi/src/main/java/io/trino/spi/block/AbstractArrayBlock.java:189-207 | a null entry's estimate is 0, otherwise the sum of its elements' estimates |
| ArrayBlocks.ArrayEstimatedDataSizeForStats | trino-deploy-spi/src/main/java/io/trino/spi/block/AbstractArrayBlock.java:189-207 | the loop computes the model's estimated data size, including the position check |
| JavaInts.ToShort | trino-deploy-spi/src/main/java/io/trino/spi/type/SmallintType.java:174-186 | the short cast keeps a value in range and otherwise differs from it by a multiple of 2^16 |
| JavaInts.ToLong | trino-deploy-client/src/main/java/io/trino/client/FixJsonDataUtils.java:100-103 | Number.longValue keeps a value in the long range and otherwise differs from it by a multiple of 2^64 |
| JavaInts.ToInt | trino-deploy-main/src/main/java/io/trino/execution/scheduler/FixedSourcePartitionedScheduler.java:96-97 | the int product keeps a value in range and otherwise differs from it by a multiple of 2^32 |
| JavaInts.ToByte | trino-deploy-main/src/main/java/io/trino/type/VarcharOperators.java:67-70 | the byte cast keeps a value in range and otherwise differs from it by a multiple of 2^8 |
| JavaInts.TruncatedQuotient | trino-deploy-main/src/main/java/io/trino/execution/scheduler/FixedSourcePartitionedScheduler.java:118 | integer division rounds toward zero: the quotient of the magnitudes, negated when exactly one operand is negative |
| JavaInts.Compare | trino-deploy-spi/src/main/java/io/trino/spi/type/ShortDecimalType.java:130-134 | Long.compare is -1, 0 or 1 exactly as the first value is below, equal to or above the second |
| JavaInts.Unsigned | trino-deploy-main/src/main/java/io/trino/type/IpAddressType.java:215-222 | the unsigned reading of a long's 64 bits is below 2^64, equals a non-negative long and differs from any long by a multiple of 2^64 |
| JavaInts.CompareUnsigned | trino-deploy-main/src/main/java/io/trino/type/IpAddressType.java:215-222 | Long.compareUnsigned is 0 exactly for equal longs and negative exactly when the first one's unsigned reading is smaller |
| Texts.IntToString | trino-deploy-main/src/main/java/io/trino/type/IpAddressType.java:137-139 | the decimal text of an integer is non-empty and starts with '-' exactly for a negative number |
| Texts.ParseInt | trino-deploy-client/src/main/java/io/trino/client/FixJsonDataUtils.java:99-110 | reads an optional '-' followed by decimal digits; FixJsonDataUtils.ParseJavaInteger uses it once a leading '+' is handled; a parsed text is non-empty, a negative result starts with '-', and ParseIntOfIntToString proves it reads IntToString back |

## Left out

- FixedSourcePartitionedScheduler.schedule: futures, blocking and concurrency; there is no sequential contract in it worth modelling.
- The grouped-execution lifespan scheduler that FixedSourcePartitionedScheduler builds for grouped stages: it is not part of this model.
- Logging calls in FixedSourcePartitionedScheduler: no observable state.
- Lifespan.java is not part of this model: a lifespan is a task-wide marker or a driver-group id.
- The thread-safety of DictionaryBlock's lazy caches (the volatile fields and benign races): the model is a sequential one-shot memo.
- DictionaryBlock and AbstractArrayBlock INSTANCE_SIZE, sizeOf and the retained sizes: JOL constants, treated as abstract.
- DictionaryBlocks.DictionaryBlock: a DictionaryBlock nested as the dictionary of another one is a value in the model, so filling the outer block's memo never fills the inner block's memo fields.
- getLoadedBlock and isLoaded: every block of the model is loaded.
- BlockOps.NewDictionaryBlock: the model has no dictionary blocks with dangling ids. The DictionaryBlock constructor never checks that the ids of its window index the dictionary; Java builds such a block and fails only when a dangling id is used later. NewDictionaryBlock, DictionaryBlocks.DictionaryBlock.constructor and DictionaryBlocks.DictionaryBlock.New require every id of the window to index the dictionary instead.
- BlockOps.Compact: never takes the path where the gather on the dictionary throws UnsupportedOperationException and compact returns the block unchanged, because the model's copyPositions never throws.
- BlockOps.RebasedArray: AbstractArrayBlock.copyRegion returns `this` when the copied values, offsets and null array come back unchanged. The model returns a block equal to the original in that case, since object identity has no meaning on values.
- ArrayBlocks.CopyArrayPositions: without a null array, AbstractArrayBlock.copyPositions never checks the selected positions and reads the offsets array directly. The model requires valid positions in that case instead of modelling Java's out-of-bounds array access.
- BlockUtil (checkArrayRange, checkValidRegion, compactOffsets, countUsedPositions) is not part of this model; the checks it makes are restated where the model calls them.
- The BlockBuilder writes in createBlockBuilder, appendTo and writeSlice: BlockBuilder is not part of this model, so only their validation checks are modelled.
- BlockEncodings: the fifteen encoding NAME constants are not in the shown sources; the model uses Trino's published encoding names.
- TypeCoercions: a type's base name is one of 33 integer codes, one per modelled type constructor, rather than a string; the rules only compare them for equality.
- TypeCoercions: types whose base names the rules never mention (qdigest, tdigest, geometry and the like) are not in the model's type universe.
- TypeCoercions: lookupType is modelled by building the type directly from its base and parameters.
- TypeCoercion.canCoerceToVarchar and isInjectiveCoercion are not modelled: neither belongs to the coercion lattice proved here.
- VarcharOperators: the casts to double, real, integer, smallint, tinyint and bigint depend on Double.parseDouble, BigDecimal and regular expressions.
- VarcharOperators.CastToBoolean: Slice.toStringUtf8 is not part of this model; the error message decodes the value with a decoder given as a parameter.
- CharType: the internals of padSpaces and countCodePoints; code points are modelled as the characters of the string.
- IpAddressType.getObjectValue: InetAddress formatting.
- ExpressionFormatter: DecimalFormat formatting of double literals.
- ExpressionFormatters.Format: SqlFormatter.formatName is not part of this model; a call carries its name as formatName prints it.
- ExpressionFormatters.Format: a call's ORDER BY sort items and its window are carried as the text sortItemFormatterFunction and formatWindow print; those printers are not modelled.
- ExpressionFormatters.Format: QualifiedName is not part of this model; a call is taken for LISTAGG when its name has one part equal to "listagg" after lower-casing ASCII letters, so non-ASCII case folding is not captured.
- ExpressionFormatters.Format: node kinds other than identifiers, symbol references, string, CHAR, long, boolean and null literals, NOT, comparisons, arithmetic, IS [NOT] NULL, BETWEEN and function calls are not modelled.
- FixJsonDataUtils: the DOUBLE and REAL branches (floating point).
- FixJsonDataUtils: JSON numbers are integral values and the digits of a numeric text are ASCII.
- FixJsonDataUtils: a JSON object keeps its keys in document order; Java's LinkedHashMap or HashMap iteration order is not modelled.
- FixJsonDataUtils: ClientStandardTypes' names are the names listed in the model.
- ResolvedFunctions.FromQualifiedName: base32hex decoding, zstd decompression and the JSON codec of the payload are one abstract `decode` parameter.
- ResolvedFunctions.FromQualifiedName: the decoded name is compared with the embedded one by folding ASCII letters only. Java's String.equalsIgnoreCase also folds non-ASCII letters, so a function named "É" embedded as "é" is accepted by Java and rejected by the model.
- ResolvedFunctions.FromQualifiedNameRoundTrip: the lower-cased case is proved for ASCII lower-casing of the last part only, because the model's case folding is ASCII folding.
- ReadOnlyAccessControls: the message texts of AccessDeniedException beyond the denied object's name.
- PageSourceManagers: connector page-source providers and the page sources they return are opaque identities.
- DateTimeUtils: Joda's PeriodFormatter and PeriodParser; each sub-parser is a parameter returning a position and a period.
- DateTimeUtils: IntervalDayTime.toMillis and IntervalYearMonth.toMonths are not part of this model; each conversion is a parameter that may fail, so the sign of the converted number is not stated; only the sign of the period it converts is.
- DateTimeUtils.ParseInto: the `~bestInvalidPos` return is unreachable, because the best valid position starts at the start position and never decreases. The model keeps that branch as written and proves it is never taken.
- CalculatorNodes: ChangeSignNode is left out, because its parent UnaryNode is not part of this model.
- CalculatorNodes: DataType.java is not part of this model; the model's data types are LONG, DOUBLE and one case for every other value.
- CalculatorNodes: a Double literal's text (Double.toString) is kept as given.
- CalculatorNodes: Java `assert` statements are modelled as enabled, failing with an assertion error.
- The generated ANTLR lexer, listener and visitor, the Janino launcher, CodeGenerateVisitor and DefaultCalculatorVisitor: generated code, or code over contexts that are not shown, or double arithmetic.
- REST resources, dispatch, JDBC export scripts and the dependency-injection scaffolding: I/O and concurrency.
- The thin value wrappers: AST nodes, plan nodes, symbols, function metadata and the standard type-name constants hold fields or a single delegation.

## Findings

| source | as written | input that shows it | evidently intended | confidence | as-written member | corrected member |
|---|---|---|---|---|---|---|
| trino-deploy-spi/src/main/java/io/trino/spi/block/DictionaryBlock.java:445-462 | copyRegion calls `getId(position)` for any region of length at most one, including an empty region that starts at positionCount | copyRegion(1, 0) on a dictionary block of one position: the region is valid, yet getId(1) throws IllegalArgumentException "Invalid position in block" | an empty region at the end copies to an empty block, as every other valid region copies | not executed | BlockOps.DictCopyRegionAsWritten, BlockOps.EmptyRegionAtEnd | BlockOps.DictCopyRegion, BlockOps.CopyRegionValues |
| trino-deploy-spi/src/main/java/io/trino/spi/block/DictionaryBlock.java:332-346 | getRegionSizeInBytes never checks the region, unlike AbstractArrayBlock's | getRegionSizeInBytes(0, -1) on a dictionary block of one position answers -4 | an invalid region is rejected, as checkValidRegion rejects it for the other blocks | not executed | BlockSizes.RegionSizeAsWritten, BlockSizes.NegativeRegionSize | BlockSizes.GetRegionSizeInBytes |
