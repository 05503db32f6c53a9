# Baracus in Dafny

Baracus is a small framework for Android applications. It has two parts:

- an inversion-of-control container. It holds one bean per registered class, injects beans into fields and calls lifecycle hooks;
- a thin object-relational layer: model beans, field lists, lazy references and collections, and data access objects over SQLite.

Around these sit:

- validation and error-handling factories, which attach validators to views and show constraint violations;
- a logger with `$n` message arguments and per-package levels;
- a database migration helper.

The repository has two trees with the same design: an older one under `net.mantucon.baracus` and a newer one under `org.baracus`. This project models both. Every core Java file is one Dafny module, prefixed `Net` or `Org` by its tree. Shared machinery has modules of its own:

- `JavaLang` holds the `java.lang` semantics the code relies on: 32-bit ints, `trim`, `split`, `parseInt`, `String.hashCode`.
- `JavaUtil` holds list operations.
- `JavaReflection` stands in for reflection. It has a class table (superclass, declared fields, constructors) and a `Heap` object that stores field values and logs method invocations.
- `ContainerCore` and `BeanInjection` hold the container's registry and its field-injection walk, which both trees share.
- `ListenerTables` holds the listener registries of the application contexts.
- `AndroidDatabase` and `AndroidViews` stand in for SQLite and the view hierarchy.

Reflection, the Android runtime, the database engine and the clock are modelled only as far as the core observes them. They are objects and parameters whose contents the model states explicitly.

Each container and context is a class whose fields the methods update. The registry is a map from class name to an optional instance (`beans`). Loops over Java `HashMap`/`HashSet` iterate in an unspecified order, so the model picks elements nondeterministically and every contract holds for any order. Pure code (string utilities, equality and hashing of model beans, the logger's message formatting, validation walks) is modelled as functions with lemmas.

## Model

| member | source | states |
|---|---|---|
| JavaLang.ParseInt | src/main/java/net/mantucon/baracus/validation/builtins/StringIsNumericInteger.java:33 | Integer.parseInt: a parsed value is always a 32-bit int and comes only from non-empty text (its round trip is ParseIntToString) |
| JavaLang.ParseIntToString | src/main/java/net/mantucon/baracus/validation/builtins/StringIsNumericInteger.java:30-36 | parseInt accepts the decimal rendering of every int and gives the same int back |
| JavaLang.TrimEmptyIff | src/main/java/net/mantucon/baracus/util/StringUtil.java:28-33 | a string trims to "" exactly when every character is at most a space, both directions |
| JavaLang.TrimUntrimmedEnds | src/main/java/net/mantucon/baracus/util/StringUtil.java:40-42 | trim() returns a string unchanged when neither end is a character trim() removes |
| DateUtil.Compare | src/main/java/net/mantucon/baracus/util/DateUtil.java:48-62 | the comparator: two nulls are equal, null sorts before every date, otherwise the sign of the difference of the millisecond times |
| DateUtil.CompareIsTotalOrder | src/main/java/org/baracus/util/DateUtil.java:53-67 | the comparator is antisymmetric and transitive, and returns 0 exactly for equal dates (both null or the same time) |
| DateUtil.ToEuropeanDate | src/main/java/net/mantucon/baracus/util/DateUtil.java:65-67 | "" for a null date; otherwise the formatter's rendering of the date |
| DateUtil.FromEuropeanDate | src/main/java/net/mantucon/baracus/util/DateUtil.java:69-75 | null for null text; otherwise the formatter's parse, a parse failure surfacing as DateFormatException |
| DateUtil.ToReverseDate | src/main/java/net/mantucon/baracus/util/DateUtil.java:77-79 | "" for a null date; otherwise the reverse formatter's rendering |
| NetStringIsNumericInteger.Validate | src/main/java/net/mantucon/baracus/validation/builtins/StringIsNumericInteger.java:28-39 | a null or blank value is valid; any other value is valid exactly when its trimmed text parses as a 32-bit int |
| NetStringIsNumericInteger.AcceptsEveryInt | src/main/java/net/mantucon/baracus/validation/builtins/StringIsNumericInteger.java:28-39 | every 32-bit int written in decimal is accepted |
| NetStringIsNumericInteger.RejectsAboveIntRange | src/main/java/net/mantucon/baracus/validation/builtins/StringIsNumericInteger.java:28-39 | a decimal one above Integer.MAX_VALUE is rejected, so the 32-bit range is enforced |
| NetStringIsNumericInteger.ViewToMessageParams | src/main/java/net/mantucon/baracus/validation/builtins/StringIsNumericInteger.java:46-54 | null for a null view; IllegalArgumentException naming the class for a view that is not a TextView; otherwise a one-element array of the trimmed text, or none when it is blank |
| NetStringNotEmpty.Validate | src/main/java/net/mantucon/baracus/validation/builtins/StringNotEmpty.java:22-29 | false exactly for null or for a value whose trimmed text is empty |
| OrgStringIsNumericInteger.Validate | src/main/java/org/baracus/validation/builtins/StringIsNumericInteger.java:25-36 | a null or blank value is valid; any other value is valid exactly when its trimmed text parses as a 32-bit int |
| OrgStringIsNumericInteger.AcceptsEveryInt | src/main/java/org/baracus/validation/builtins/StringIsNumericInteger.java:25-36 | every 32-bit int written in decimal is accepted |
| OrgStringIsNumericInteger.RejectsAboveIntRange | src/main/java/org/baracus/validation/builtins/StringIsNumericInteger.java:25-36 | a decimal one above Integer.MAX_VALUE is rejected |
| OrgStringIsNumericInteger.ViewToMessageParams | src/main/java/org/baracus/validation/builtins/StringIsNumericInteger.java:43-51 | null for a null view; IllegalArgumentException naming the class for a non-TextView; otherwise toArray of the trimmed text |
| OrgStringNotEmpty.Validate | src/main/java/org/baracus/validation/builtins/StringNotEmpty.java:18-25 | false exactly for null or for a value whose trimmed text is empty |
| NetValidator.NoParams | src/main/java/net/mantucon/baracus/validation/AbstractValidator.java:24-26 | the default message parameters are null for every view |
| NetStringUtil.FirstByteToLower | src/main/java/net/mantucon/baracus/util/StringUtil.java:19-21 | the empty string throws (substring(0, 1)); otherwise same length, first character lower-cased, the rest unchanged |
| NetStringUtil.ToArray | src/main/java/net/mantucon/baracus/util/StringUtil.java:87-95 | no element for null or ""; otherwise exactly the input as the single element |
| NetStringUtil.Join | src/main/java/net/mantucon/baracus/util/StringUtil.java:102-109 | join as written: fails when fewer than three characters were appended, otherwise returns the ", "-terminated text without its first character and its trailing two |
| NetStringUtil.JoinDropsFirstCharacter | src/main/java/net/mantucon/baracus/util/StringUtil.java:102-109 | for a list whose first element is non-empty, join succeeds and returns the ", "-joined text with its first character missing |
| NetStringUtil.JoinExample | src/main/java/net/mantucon/baracus/util/StringUtil.java:102-109 | ["ab", "cd"] joins to "b, cd" |
| NetStringUtil.JoinCorrected | src/main/java/net/mantucon/baracus/util/StringUtil.java:97-101 | the intended join: the empty list gives "", otherwise the result followed by ", " is exactly the text the loop appends |
| NetStringUtil.PurifiedPieces | src/main/java/net/mantucon/baracus/util/StringUtil.java:117-129 | the purified result is null exactly for null or "", and otherwise has one element per piece of the split, each piece trimmed |
| NetStringUtil.PurifiedFromPieces | src/main/java/net/mantucon/baracus/util/StringUtil.java:117-129 | any list with one trimmed element per split piece, in order, is the purified result |
| NetStringUtil.SplitPurified | src/main/java/net/mantucon/baracus/util/StringUtil.java:117-129 | the returned array is null for null or "", otherwise its contents are the purified pieces |
| NetStringUtil.TrimEach | src/main/java/net/mantucon/baracus/util/StringUtil.java:121-126 | a fresh array of the same length whose i-th element is the i-th piece trimmed |
| NetStringUtil.SplitPurifiedExample | src/main/java/net/mantucon/baracus/util/StringUtil.java:117-129 | splitPurified("a, b", ",") gives "a" and "b" |
| OrgDataUtil.Hashify | src/main/java/org/baracus/util/DataUtil.java:28-38 | IllegalArgumentException exactly when two items share a key; otherwise a map whose keys are the items' keys, each mapped to the item with that key |
| OrgDataUtil.HashifyClash | src/main/java/org/baracus/util/DataUtil.java:32-34 | a key already used by an earlier item means the keys are not unique |
| OrgDataUtil.HashifyStep | src/main/java/org/baracus/util/DataUtil.java:30-36 | one loop step with a fresh key extends the map by that item and keeps the keys unique |
| OrgDataUtil.GroupOf | src/main/java/org/baracus/util/DataUtil.java:54-68 | the items with key k, in input order: every element has key k and its size counts the items with key k |
| OrgDataUtil.Hashify2List | src/main/java/org/baracus/util/DataUtil.java:54-68 | never throws; the keys are exactly the items' keys and each maps to the list of items with that key, in input order |
| OrgDataUtil.GroupOfAbsent | src/main/java/org/baracus/util/DataUtil.java:54-68 | a key that no item has gets an empty group |
| OrgDataUtil.GroupSizesSumToInput | src/main/java/org/baracus/util/DataUtil.java:54-68 | every item lands in exactly one group: over any duplicate-free list of keys covering all item keys, the group sizes add up to the number of items |
| MessageArgs.DollarFreeUnchanged | src/main/java/org/baracus/util/Logger.java:172-178 | a message without '$' comes back unchanged whatever the arguments |
| MessageArgs.SubstitutedFrozen | src/main/java/org/baracus/util/Logger.java:172-178 | once the message holds no '$', the remaining placeholder replacements change nothing |
| MessageArgs.ReplaceByPieces | src/main/java/org/baracus/util/Logger.java:172-178 | String.replace of a placeholder token on a message cut into literal and token pieces is the piecewise replacement |
| MessageArgs.SubstitutedThree | src/main/java/org/baracus/util/Logger.java:172-178 | with three arguments the result is "$1", then "$2", then "$3" replaced in that order |
| MessageArgs.LoggerTestExample | src/test/java/org/baracus/util/LoggerTest.java:20-22 | "$1 times $2 makes $3" with 4, 3, 12 gives "4 times 3 makes 12" |
| MessageArgs.TenthPlaceholderShadowed | src/main/java/org/baracus/util/Logger.java:172-178 | with ten arguments "$10" is consumed when "$1" is replaced: it becomes the first argument followed by "0", never the tenth argument |
| NetLogger.IsLoggable | src/main/java/net/mantucon/baracus/util/Logger.java:273-287 | a level passes exactly when it is at most as verbose as the static level (the switch's five cases as one order) |
| NetLogger.OnlyTraceSuppressed | src/main/java/net/mantucon/baracus/util/Logger.java:273-287 | with the static level at DEBUG every level except TRACE passes, both directions |
| NetLogger.LoggerStatics.EnableTestLogger | src/main/java/net/mantucon/baracus/util/Logger.java:30-32 | a fresh, empty log target replaces the current one; the tag is kept |
| NetLogger.LoggerStatics.SetTag | src/main/java/net/mantucon/baracus/util/Logger.java:345-347 | the tag is replaced and the target kept |
| NetLogger.ProcessMessageArgs | src/main/java/net/mantucon/baracus/util/Logger.java:164-170 | no argument returns the message as is; a null message with arguments throws NullPointerException; otherwise "$1".."$n" are replaced in turn |
| NetLogger.Logger.constructor | src/main/java/net/mantucon/baracus/util/Logger.java:172-175 | the id is stored and exactly one DEBUG call "<id> was registered" reaches the target |
| NetLogger.Logger.LogMessage | src/main/java/net/mantucon/baracus/util/Logger.java:290-331 | exactly one call reaches the target, with the level, the tag, the message ("null" for null) and the throwable |
| NetLogger.Logger.Log | src/main/java/net/mantucon/baracus/util/Logger.java:333-343 | one call reaches the target when the level is loggable and none otherwise |
| NetLogger.Logger.LogArgs | src/main/java/net/mantucon/baracus/util/Logger.java:181-221 | loggable level: one call with the id and the processed message, unless a null message with arguments throws; throws exactly in that case; non-loggable: nothing at all |
| NetLogger.Logger.LogPlain | src/main/java/net/mantucon/baracus/util/Logger.java:223-245 | one call with the id followed by the message when the level is loggable, none otherwise |
| NetLogger.Logger.LogThrowable | src/main/java/net/mantucon/baracus/util/Logger.java:248-270 | one call with the id, the message and the throwable when the level is loggable, none otherwise |
| NetLogger.DefaultLevelScenario | src/main/java/net/mantucon/baracus/util/Logger.java:172-175 | under the default level a new logger's announcement and info and warn messages get through, a trace message does not, and null is logged as "null" |
| OrgLogger.LoggerStatics.constructor | src/main/java/org/baracus/util/Logger.java:25-42 | class initialisation: the default tag, an empty target and a configuration that only has the default at ERROR and no cached package |
| OrgLogger.LoggerStatics.EnableTestLogger | src/main/java/org/baracus/util/Logger.java:44-46 | a fresh, empty log target replaces the current one; tag and configuration are kept |
| OrgLogger.LoggerStatics.SetLogTarget | src/main/java/org/baracus/util/Logger.java:168-170 | the target is replaced; tag and configuration are kept |
| OrgLogger.LoggerStatics.SetLoggingConfiguration | src/main/java/org/baracus/util/Logger.java:197-199 | the configuration is replaced; tag and target are kept |
| OrgLogger.LoggerStatics.SetTag | src/main/java/org/baracus/util/Logger.java:361-363 | the tag is replaced; configuration and target are kept |
| OrgLogger.ProcessMessageArgs | src/main/java/org/baracus/util/Logger.java:172-178 | no argument returns the message as is; a null message with arguments throws NullPointerException; otherwise "$1".."$n" are replaced in turn |
| OrgLogger.Logger.constructor | src/main/java/org/baracus/util/Logger.java:185-189 | the id is the class's simple name; the configuration caches a level for its package; one DEBUG announcement is logged exactly when the package's level lets DEBUG through |
| OrgLogger.Logger.IsLoggable | src/main/java/org/baracus/util/Logger.java:301-303 | the answer is whether the level cached for the class's package allows the level; the cache only gains that package |
| OrgLogger.Logger.LogMessage | src/main/java/org/baracus/util/Logger.java:306-347 | exactly one call reaches the target, with the level, the tag, the message ("null" for null) and the throwable |
| OrgLogger.Logger.Log | src/main/java/org/baracus/util/Logger.java:349-359 | one call reaches the target when the package's level lets the level through and none otherwise |
| OrgLogger.Logger.LogArgs | src/main/java/org/baracus/util/Logger.java:209-249 | gated by the package's level: one call with the id and the processed message, or a throw exactly for a null message with arguments; nothing when gated off |
| OrgLogger.Logger.LogPlain | src/main/java/org/baracus/util/Logger.java:251-273 | one call with the id followed by the message when the package's level lets it through, none otherwise |
| OrgLogger.Logger.LogThrowable | src/main/java/org/baracus/util/Logger.java:276-298 | one call with the id, the message and the throwable when the package's level lets it through, none otherwise |
| OrgLogger.SetUpTestLogging | src/test/java/org/baracus/util/LoggingConfigurationTest.java:91-96 | the test's set-up: a fresh target and a configuration with "org.baracus.dao" at ERROR, "org.baracus.util" at DEBUG and "org.baracus" at WARN, nothing cached |
| OrgLogger.CreateTestLoggers | src/test/java/org/baracus/util/LoggingConfigurationTest.java:98-100 | the three loggers of the test; of them only the one for LoggingConfiguration announces itself |
| OrgLogger.ConfigurationTestScenario | src/test/java/org/baracus/util/LoggingConfigurationTest.java:89-119 | testIsLoggable: exactly these five calls reach the target, in this order |
| OrgLogger.LogTestMessages | src/test/java/org/baracus/util/LoggingConfigurationTest.java:102-118 | the six test messages: INFO and DEBUG lie below the levels of "org.baracus.dao" and "org.baracus", so four of them pass |
| OrgLoggingConfiguration.Allows | src/main/java/org/baracus/util/LoggingConfiguration.java:76-90 | a configured level lets l through exactly when l is at most as verbose |
| OrgLoggingConfiguration.ErrorAlwaysAllowed | src/main/java/org/baracus/util/LoggingConfiguration.java:76-90 | ERROR passes every configured level, and TRACE passes only TRACE |
| OrgLoggingConfiguration.CandidateIsEmptyName | src/main/java/org/baracus/util/LoggingConfiguration.java:55-60 | because split(".") of any non-empty plain name is empty, only the empty name can be a prefix candidate |
| OrgLoggingConfiguration.AdmissibleIsResolve | src/main/java/org/baracus/util/LoggingConfiguration.java:46-68 | with plain configured names the cached level is determined, both directions: the exact match, otherwise the default, since no parent package can win |
| OrgLoggingConfiguration.ParentPackageIgnored | src/main/java/org/baracus/util/LoggingConfiguration.java:35-68 | with "org" at WARN and the default at ERROR, "org.baracus.util" gets ERROR and not WARN; the as-written half of the package lookup finding |
| OrgLoggingConfiguration.ParentPackageApplies | src/main/java/org/baracus/util/LoggingConfiguration.java:35-44 | under the documented lookup, with "org" at WARN and the default at ERROR, "org.baracus.util" gets exactly WARN |
| OrgLoggingConfiguration.LoggingConfiguration.constructor | src/main/java/org/baracus/util/LoggingConfiguration.java:17-19 | a fresh configuration has only the default name at ERROR and caches nothing |
| OrgLoggingConfiguration.LoggingConfiguration.IsLoggable | src/main/java/org/baracus/util/LoggingConfiguration.java:26-33 | the cache gets the package if it was missing, nothing else changes, and the answer is whether the cached level allows the level |
| OrgLoggingConfiguration.LoggingConfiguration.DeterminePackageFromConfig | src/main/java/org/baracus/util/LoggingConfiguration.java:46-68 | for any HashMap order, the cache gains the package, with a level the loop can pick; the configured map is unchanged |
| OrgLoggingConfiguration.LoggingConfiguration.DeterminePackageIntended | src/main/java/org/baracus/util/LoggingConfiguration.java:35-68 | the corrected lookup caches the exact entry, else the level of a configured parent with the most separators, else the default; only that package's cache entry changes |
| OrgLoggingConfiguration.LoggingConfiguration.SetPackageLogLevel | src/main/java/org/baracus/util/LoggingConfiguration.java:97-99 | the package's name is configured with the level; the cache is left alone |
| OrgLoggingConfiguration.LoggingConfiguration.SetClassLogLevel | src/main/java/org/baracus/util/LoggingConfiguration.java:106-108 | the class's package name is configured with the level; the cache is left alone |
| OrgLoggingConfiguration.LoggingConfiguration.SetLogLevel | src/main/java/org/baracus/util/LoggingConfiguration.java:116-118 | the name is configured with the level; the cache is left alone |
| OrgLoggingConfiguration.LoggingConfiguration.SetDefaultLogLevel | src/main/java/org/baracus/util/LoggingConfiguration.java:125-127 | the default name is configured with the level; the cache is left alone |
| OrgLoggingConfiguration.LoggingConfiguration.Reset | src/main/java/org/baracus/util/LoggingConfiguration.java:133-135 | the cache is emptied; the configured levels stay |
| OrgLoggingConfiguration.CacheScenario | src/main/java/org/baracus/util/LoggingConfiguration.java:26-33 | a package first asked about under the default only logs errors; configuring it afterwards has no effect until reset |
| NetAbstractModelBase.AbstractModelBase.constructor | src/main/java/net/mantucon/baracus/orm/AbstractModelBase.java:98-100 | a new bean has the given table, no id, is transient, and has no dates, version 0 and no attributes |
| NetAbstractModelBase.AbstractModelBase.SetTransient | src/main/java/net/mantucon/baracus/orm/AbstractModelBase.java:106-108 | only the transient flag changes, to the given value |
| NetAbstractModelBase.AbstractModelBase.SetId | src/main/java/net/mantucon/baracus/orm/AbstractModelBase.java:120-122 | only the id changes, to the given value |
| NetAbstractModelBase.AbstractModelBase.HashCode | src/main/java/net/mantucon/baracus/orm/AbstractModelBase.java:146-150 | the hash is a 32-bit int computed from the id and the table name |
| NetAbstractModelBase.EqualsContract | src/main/java/net/mantucon/baracus/orm/AbstractModelBase.java:125-150 | equals is reflexive, symmetric and transitive, rejects null, and equal beans have equal hash codes |
| NetAbstractModelBase.UnsavedBeansEqual | src/main/java/net/mantucon/baracus/orm/AbstractModelBase.java:125-143 | two beans of one table that both have no id are equal, so unsaved beans cannot be told apart |
| NetAbstractModelBase.StaticFieldList | src/main/java/net/mantucon/baracus/orm/AbstractModelBase.java:85-87 | the static field list is bound to "AbstractModelBase", holds only idCol and is locked by the constructor that takes fields |
| NetModelBase.NewModelBase | src/main/java/net/mantucon/baracus/orm/ModelBase.java:85-87 | a new-style bean: the given table, no id, transient |
| NetModelBase.MigrationStatement | src/main/java/net/mantucon/baracus/orm/ModelBase.java:95-97 | the statement is the fixed UPDATE prefix, then the table name verbatim, then a closing quote |
| NetModelBase.StaticInit | src/main/java/net/mantucon/baracus/orm/ModelBase.java:80-82 | the static block appends "_id" to the inherited AbstractModelBase field list and leaves it valid and unsorted |
| NetModelBase.SharedFieldListScenario | src/main/java/net/mantucon/baracus/orm/ModelBase.java:77-82 | once ModelBase is loaded, AbstractModelBase's field list names both key columns, "id" then "_id" |
| NetLegacyModelBase.NewLegacyModelBase | src/main/java/net/mantucon/baracus/orm/LegacyModelBase.java:29-31 | an old-style bean: the given table, no id, transient, version 0, no attributes |
| NetLegacyModelBase.LegacyEqualsIsIdentity | src/main/java/net/mantucon/baracus/orm/LegacyModelBase.java:34-52 | against a legacy bean equals holds exactly for the same object, even with the same id and table |
| NetLegacyModelBase.LegacyEqualsIntendedIsContent | src/main/java/net/mantucon/baracus/orm/LegacyModelBase.java:34-52 | the corrected equals between legacy beans holds exactly for the same object or the same id and table; it is symmetric and agrees with hashCode |
| NetLegacyModelBase.LegacyEqualsQuirk | src/main/java/net/mantucon/baracus/orm/LegacyModelBase.java:34-52 | a legacy bean equals a ModelBase of the same id and table and that one equals it back, while two distinct legacy beans with that id and table are unequal yet hash alike |
| NetLegacyModelBase.StaticFieldList | src/main/java/net/mantucon/baracus/orm/LegacyModelBase.java:15-26 | the static field list is bound to "AbstractModelBase", holds only idCol and is left unlocked |
| NetField.NewField | src/main/java/net/mantucon/baracus/orm/Field.java:35-39 | a column with the given name and index that is not a key |
| NetField.NewUnindexedField | src/main/java/net/mantucon/baracus/orm/Field.java:46-50 | a non-key column with index -1 |
| NetField.NewKeyField | src/main/java/net/mantucon/baracus/orm/Field.java:59-63 | a column with the given name, index and key flag |
| NetField.HashCode | src/main/java/net/mantucon/baracus/orm/Field.java:84-88 | the hash is a 32-bit int |
| NetField.CompareTo | src/main/java/net/mantucon/baracus/orm/Field.java:91-93 | the sign of the result is the order of the two indexes, and it lies in -1..1 |
| NetField.EqualsContract | src/main/java/net/mantucon/baracus/orm/Field.java:71-88 | equals is reflexive, symmetric and transitive, false for null, and equal fields hash alike |
| NetField.EqualsIgnoresKeyFlag | src/main/java/net/mantucon/baracus/orm/Field.java:71-81 | a key and a non-key column with the same name and index are equal |
| NetField.CompareToInconsistentWithEquals | src/main/java/net/mantucon/baracus/orm/Field.java:91-93 | two columns with different names at one index compare as 0 but are not equal |
| NetField.CompareToOrder | src/main/java/net/mantucon/baracus/orm/Field.java:91-93 | compareTo is antisymmetric and transitive |
| NetConfigurationParameter.StaticInit | src/main/java/net/mantucon/baracus/model/ConfigurationParameter.java:18-31 | the two columns are numbered by LegacyModelBase's list size plus 0 and 1; the new list is bound to "ConfigurationParameter" and is that list followed by the two columns |
| NetConfigurationParameter.StaticInitScenario | src/main/java/net/mantucon/baracus/model/ConfigurationParameter.java:23-31 | initialised after LegacyModelBase, the columns sit at 1 and 2 and the list reads id, config_parameter, config_parameter_value |
| NetConfigurationParameter.NewConfigurationParameter | src/main/java/net/mantucon/baracus/model/ConfigurationParameter.java:33-35 | a legacy bean of the "configuration" table without id, name or value |
| NetConfigurationParameter.SetConfigParameter | src/main/java/net/mantucon/baracus/model/ConfigurationParameter.java:41-43 | the name becomes the given one and the value is unchanged |
| NetConfigurationParameter.SetConfigParameterValue | src/main/java/net/mantucon/baracus/model/ConfigurationParameter.java:49-51 | the value becomes the given one and the name is unchanged |
| NetConfigurationParameter.EqualsIsIdentity | src/main/java/net/mantucon/baracus/model/ConfigurationParameter.java:54-76 | equals never throws, is false for null and, against a configuration parameter, holds exactly for the same object |
| NetConfigurationParameter.EqualsIntendedIsContent | src/main/java/net/mantucon/baracus/model/ConfigurationParameter.java:54-76 | the corrected equals between named configuration parameters holds exactly for the same object or the same id, table, name and value, and agrees with hashCode |
| NetConfigurationParameter.HashCode | src/main/java/net/mantucon/baracus/model/ConfigurationParameter.java:79-84 | throws NullPointerException exactly when the name is null; otherwise a 32-bit int |
| NetConfigurationParameter.HashCodeOfContent | src/main/java/net/mantucon/baracus/model/ConfigurationParameter.java:79-84 | parameters agreeing on id, table, name and value have the same hash |
| OrgFieldList.InsertSorted | src/main/java/org/baracus/orm/FieldList.java:143-150 | inserting one field into a list sorted by index keeps it sorted |
| OrgFieldList.SortByIndexCorrect | src/main/java/org/baracus/orm/FieldList.java:143-150 | the sort of getFields is ascending by index and a permutation of the fields |
| OrgFieldList.SortByIndexStable | src/main/java/org/baracus/orm/FieldList.java:143-150 | the sort is stable: for every index the fields with that index keep their relative order |
| OrgFieldList.SortByIndexOfSorted | src/main/java/org/baracus/orm/FieldList.java:143-150 | sorting an already sorted list changes nothing, which is why a clean list may be returned as it is |
| OrgFieldList.SortByIndexNonKey | src/main/java/org/baracus/orm/FieldList.java:101-110 | sorting keeps the number of non-key columns |
| OrgFieldList.PlaceholderShape | src/main/java/org/baracus/orm/FieldList.java:119-127 | the placeholder text for n columns has length 2n-1 and alternates "?" and "," |
| OrgFieldList.CutLast | src/main/java/org/baracus/orm/FieldList.java:97-98 | cutting the last character off the builder fails with StringIndexOutOfBoundsException exactly for no element, and otherwise gives the elements joined by "," |
| OrgFieldList.FieldList.constructor | src/main/java/org/baracus/orm/FieldList.java:29-31 | a new list is bound to the binder, empty, unlocked and due for a sort |
| OrgFieldList.FieldList.WithFields | src/main/java/org/baracus/orm/FieldList.java:40-51 | the locked check can never fire in a constructor; the list is bound to the binder, holds the fields in order and is locked |
| OrgFieldList.FieldList.Add | src/main/java/org/baracus/orm/FieldList.java:57-67 | the field is appended even to a locked list, the list is marked for sorting, and the duplicate warning fires exactly when an equal field was present |
| OrgFieldList.FieldList.AddAll | src/main/java/org/baracus/orm/FieldList.java:69-76 | all fields are appended in order; the warnings name the new fields equal to one already in the old list, so repeats inside the added list go unreported |
| OrgFieldList.FieldList.AddFieldList | src/main/java/org/baracus/orm/FieldList.java:78-81 | the other list's fields, as they were before the call, are appended; warnings as for add(List) |
| OrgFieldList.FieldList.GetFields | src/main/java/org/baracus/orm/FieldList.java:143-150 | the stored list becomes the stable sort of the old list, is marked clean and is returned |
| OrgFieldList.FieldList.GetFieldNames | src/main/java/org/baracus/orm/FieldList.java:83-90 | a fresh array with the names of the sorted fields, in order; the list is left sorted and clean |
| OrgFieldList.FieldList.GetFieldNamesAsString | src/main/java/org/baracus/orm/FieldList.java:92-99 | fails exactly for an empty list; otherwise the sorted names joined by "," |
| OrgFieldList.FieldList.GetFieldNamesAsStringWithoutKeyColumn | src/main/java/org/baracus/orm/FieldList.java:101-110 | fails exactly when no non-key field exists; otherwise the sorted non-key names joined by "," |
| OrgFieldList.FieldList.GetParamsAsString | src/main/java/org/baracus/orm/FieldList.java:119-127 | fails exactly for an empty list; otherwise one "?" per field joined by "," |
| OrgFieldList.FieldList.GetParamsAsStringWithoutKeyColumn | src/main/java/org/baracus/orm/FieldList.java:132-141 | fails exactly when no non-key field exists; otherwise one "?" per non-key field joined by "," |
| OrgFieldList.FieldList.Validate | src/main/java/org/baracus/orm/FieldList.java:152-161 | the positions warned about are in range, ascending, and are exactly those whose field's index differs from its position |
| OrgFieldList.ProjectionsAgree | src/main/java/org/baracus/orm/FieldList.java:101-141 | without the key column there are as many placeholders as column names, so a statement built from both is well formed |
| OrgAbstractModelBase.AbstractModelBase.constructor | src/main/java/org/baracus/orm/AbstractModelBase.java:22-29 | a new bean has the given table and style flag, no id, is transient and has version 0 |
| OrgAbstractModelBase.AbstractModelBase.SetTransient | src/main/java/org/baracus/orm/AbstractModelBase.java:35-37 | only the transient flag changes, to the given value |
| OrgAbstractModelBase.AbstractModelBase.SetId | src/main/java/org/baracus/orm/AbstractModelBase.java:49-51 | only the id changes, to the given value |
| OrgAbstractModelBase.AbstractModelBase.HashCode | src/main/java/org/baracus/orm/AbstractModelBase.java:54-58 | the hash is a 32-bit int |
| OrgAbstractModelBase.HashCodeOfKey | src/main/java/org/baracus/orm/AbstractModelBase.java:54-58 | beans agreeing on id and table name have the same hash |
| OrgAbstractModelBase.ToStringUnsaved | src/main/java/org/baracus/orm/AbstractModelBase.java:61-67 | an unsaved transient bean renders as "AbstractModelBase{id=null, isTransient=true, tableName='<table>'}" |
| OrgModelBase.NewModelBase | src/main/java/org/baracus/orm/ModelBase.java:88-90 | a new-style bean with the given table, no id, transient |
| OrgModelBase.NewModelBaseWithId | src/main/java/org/baracus/orm/ModelBase.java:92-98 | a new-style bean with the given id and version 0, transient exactly when the id is null |
| OrgModelBase.ModelEqualsContract | src/main/java/org/baracus/orm/ModelBase.java:101-119 | among ModelBase beans equals is reflexive, symmetric and transitive, rejects null, and equal beans hash alike |
| OrgModelBase.ModelEqualsRejectsOthers | src/main/java/org/baracus/orm/ModelBase.java:101-119 | a bean that is not a ModelBase is equal only to itself |
| OrgModelBase.StaticFieldList | src/main/java/org/baracus/orm/ModelBase.java:74-85 | the static field list is bound to "ModelBase", holds only idCol and is unlocked |
| OrgOptimisticLockingModelBase.NewOptimisticLockException | src/main/java/org/baracus/orm/OptimisticLockingModelBase.java:13-16 | the exception names the entity and its message is the fixed prefix followed by the entity name |
| OrgOptimisticLockingModelBase.VersionCol | src/main/java/org/baracus/orm/OptimisticLockingModelBase.java:23 | "version" is a key column whose index is the size ModelBase's field list had at class initialisation |
| OrgOptimisticLockingModelBase.NewLockingModelBase | src/main/java/org/baracus/orm/OptimisticLockingModelBase.java:33-39 | ModelBase's construction with version 0: the given table and id, transient exactly when the id is null |
| OrgOptimisticLockingModelBase.SetVersion | src/main/java/org/baracus/orm/OptimisticLockingModelBase.java:50-52 | only the version changes, to the given value |
| OrgOptimisticLockingModelBase.EqualsConsistentWithHashCode | src/main/java/org/baracus/orm/OptimisticLockingModelBase.java:55-73 | whatever the classes, equals is reflexive, rejects null, and equal beans hash alike |
| OrgOptimisticLockingModelBase.EqualsAsymmetric | src/main/java/org/baracus/orm/OptimisticLockingModelBase.java:55-73 | a plain ModelBase equals a locking bean of the same id and table, which does not equal it back |
| OrgOptimisticLockingModelBase.LockingEqualsOnKey | src/main/java/org/baracus/orm/OptimisticLockingModelBase.java:55-73 | between two locking beans equals holds exactly for the same id and table, and is symmetric |
| OrgOptimisticLockingModelBase.StaticInit | src/main/java/org/baracus/orm/OptimisticLockingModelBase.java:8-29 | a fresh list bound to "AbstractModelBase" holds ModelBase's fields followed by versionCol and is unlocked |
| OrgOptimisticLockingModelBase.StaticFieldListScenario | src/main/java/org/baracus/orm/OptimisticLockingModelBase.java:23-29 | after initialisation the names read "_id,version"; both are key columns, so the names without the key column throw StringIndexOutOfBoundsException |
| OrgReference.ReferenceLoader.LoadObject | src/main/java/org/baracus/orm/LazyReference.java:39 | the loader's outcome is returned and its invocation count goes up by one |
| OrgReference.LazyReference.constructor | src/main/java/org/baracus/orm/LazyReference.java:30-32 | a new reference is armed, holds no instance and keeps the loader |
| OrgReference.LazyReference.GetObject | src/main/java/org/baracus/orm/LazyReference.java:35-43 | the reference ends loaded; the loader runs exactly when it was armed, at most once overall; a loaded reference returns its instance; a throwing loader's exception propagates and later calls return null |
| OrgReference.ObjectReference.constructor | src/main/java/org/baracus/orm/ObjectReference.java:16-18 | the reference holds the given object |
| OrgReference.ObjectReference.Empty | src/main/java/org/baracus/orm/ObjectReference.java:20-21 | the reference holds no object |
| OrgReference.ObjectReference.GetObjectRefId | src/main/java/org/baracus/orm/ObjectReference.java:29-31 | NullPointerException exactly when there is no object; otherwise the object's id |
| OrgReference.ObjectReference.SetObject | src/main/java/org/baracus/orm/ObjectReference.java:33-35 | the reference now holds the given object |
| OrgReference.NullReferenceAvoidsCrash | src/main/java/org/baracus/orm/NullReference.java:12-20 | a NullReference and an empty ObjectReference both give no object, but only the NullReference answers the id question, with null, instead of throwing |
| OrgReference.LoadOnceScenario | src/main/java/org/baracus/orm/LazyReference.java:35-43 | two calls on one lazy reference both return the loaded bean |
| OrgReference.FailedLoadScenario | src/main/java/org/baracus/orm/LazyReference.java:35-43 | a loader that throws fails the first call; the second returns null |
| NetLazyCollection.LazyCollection.CheckReferencedData | src/main/java/net/mantucon/baracus/orm/LazyCollection.java:54-61 | an armed list is marked loaded and filled by exactly one loader run; a loaded list runs nothing; a throwing loader leaves it loaded and empty |
| NetLazyCollection.LazyCollection.Add | src/main/java/net/mantucon/baracus/orm/LazyCollection.java:64-67 | after the load, the element is appended and true returned |
| NetLazyCollection.LazyCollection.AddAt | src/main/java/net/mantucon/baracus/orm/LazyCollection.java:109-112 | after the load, the element is inserted at the index, or IndexOutOfBoundsException unless 0 <= index <= size, the list then unchanged |
| NetLazyCollection.LazyCollection.AddAll | src/main/java/net/mantucon/baracus/orm/LazyCollection.java:139-142 | after the load, the collection is appended; the answer is whether it was non-empty |
| NetLazyCollection.LazyCollection.AddAllAt | src/main/java/net/mantucon/baracus/orm/LazyCollection.java:69-72 | after the load, the collection is inserted at the index, or IndexOutOfBoundsException for an index outside 0..size |
| NetLazyCollection.LazyCollection.SubList | src/main/java/net/mantucon/baracus/orm/LazyCollection.java:74-77 | after the load, the elements from start up to end, failing exactly when not 0 <= start <= end <= size; the list is unchanged |
| NetLazyCollection.LazyCollection.RemoveAt | src/main/java/net/mantucon/baracus/orm/LazyCollection.java:79-82 | after the load, the element at the index is removed and returned, or IndexOutOfBoundsException for an index outside the list |
| NetLazyCollection.LazyCollection.Remove | src/main/java/net/mantucon/baracus/orm/LazyCollection.java:184-187 | after the load, the first occurrence is removed; the answer is whether the element was present |
| NetLazyCollection.LazyCollection.RemoveAllOf | src/main/java/net/mantucon/baracus/orm/LazyCollection.java:149-152 | after the load, every element of the collection is removed; the answer is whether the list changed |
| NetLazyCollection.LazyCollection.RetainAllOf | src/main/java/net/mantucon/baracus/orm/LazyCollection.java:174-177 | after the load, only elements of the collection are kept; the answer is whether the list changed |
| NetLazyCollection.LazyCollection.Clear | src/main/java/net/mantucon/baracus/orm/LazyCollection.java:134-137 | after the load, the list is empty |
| NetLazyCollection.LazyCollection.Set | src/main/java/net/mantucon/baracus/orm/LazyCollection.java:169-172 | after the load, the element at the index is replaced and the old one returned, or IndexOutOfBoundsException outside the list |
| NetLazyCollection.LazyCollection.Get | src/main/java/net/mantucon/baracus/orm/LazyCollection.java:99-102 | after the load, the element at the index, or IndexOutOfBoundsException outside the list; the list is unchanged |
| NetLazyCollection.LazyCollection.Size | src/main/java/net/mantucon/baracus/orm/LazyCollection.java:89-92 | after the load, the number of loaded elements; the list is unchanged |
| NetLazyCollection.LazyCollection.IsEmpty | src/main/java/net/mantucon/baracus/orm/LazyCollection.java:179-182 | after the load, whether no element is held |
| NetLazyCollection.LazyCollection.Contains | src/main/java/net/mantucon/baracus/orm/LazyCollection.java:94-97 | after the load, whether the element is held |
| NetLazyCollection.LazyCollection.ContainsAll | src/main/java/net/mantucon/baracus/orm/LazyCollection.java:124-127 | after the load, whether every element of the collection is held |
| NetLazyCollection.LazyCollection.IndexOfElement | src/main/java/net/mantucon/baracus/orm/LazyCollection.java:159-162 | after the load, the first position of the element or -1 |
| NetLazyCollection.LazyCollection.LastIndexOfElement | src/main/java/net/mantucon/baracus/orm/LazyCollection.java:84-87 | after the load, the last position of the element or -1 |
| NetLazyCollection.LazyCollection.Snapshot | src/main/java/net/mantucon/baracus/orm/LazyCollection.java:114-122 | after the load, the elements an iterator or toArray walks over from the position, or IndexOutOfBoundsException for a position outside 0..size |
| NetLazyCollection.LazyCollection.Touch | src/main/java/net/mantucon/baracus/orm/LazyCollection.java:104-107 | ensureCapacity and trimToSize only trigger the load; the list content is the loaded one |
| NetLazyMorphicCollection.LazyMorphicCollection.CheckReferencedData | src/main/java/net/mantucon/baracus/orm/LazyMorphicCollection.java:46-53 | an armed list is marked loaded and filled by exactly one loader run; a loaded list runs nothing; a throwing loader leaves it loaded and empty |
| NetLazyMorphicCollection.LazyMorphicCollection.Add | src/main/java/net/mantucon/baracus/orm/LazyMorphicCollection.java:56-59 | after the load, the element is appended and true returned |
| NetLazyMorphicCollection.LazyMorphicCollection.AddAt | src/main/java/net/mantucon/baracus/orm/LazyMorphicCollection.java:101-104 | after the load, the element is inserted at the index, or IndexOutOfBoundsException unless 0 <= index <= size, the list then unchanged |
| NetLazyMorphicCollection.LazyMorphicCollection.AddAll | src/main/java/net/mantucon/baracus/orm/LazyMorphicCollection.java:141-144 | after the load, the collection is appended; the answer is whether it was non-empty |
| NetLazyMorphicCollection.LazyMorphicCollection.AddAllAt | src/main/java/net/mantucon/baracus/orm/LazyMorphicCollection.java:61-64 | after the load, the collection is inserted at the index, or IndexOutOfBoundsException for an index outside 0..size |
| NetLazyMorphicCollection.LazyMorphicCollection.SubList | src/main/java/net/mantucon/baracus/orm/LazyMorphicCollection.java:66-69 | after the load, the elements from start up to end, failing exactly when not 0 <= start <= end <= size; the list is unchanged |
| NetLazyMorphicCollection.LazyMorphicCollection.RemoveAt | src/main/java/net/mantucon/baracus/orm/LazyMorphicCollection.java:71-74 | after the load, the element at the index is removed and returned, or IndexOutOfBoundsException for an index outside the list |
| NetLazyMorphicCollection.LazyMorphicCollection.Remove | src/main/java/net/mantucon/baracus/orm/LazyMorphicCollection.java:186-189 | after the load, the first occurrence is removed; the answer is whether the element was present |
| NetLazyMorphicCollection.LazyMorphicCollection.RemoveAllOf | src/main/java/net/mantucon/baracus/orm/LazyMorphicCollection.java:151-154 | after the load, every element of the collection is removed; the answer is whether the list changed |
| NetLazyMorphicCollection.LazyMorphicCollection.RetainAllOf | src/main/java/net/mantucon/baracus/orm/LazyMorphicCollection.java:176-179 | after the load, only elements of the collection are kept; the answer is whether the list changed |
| NetLazyMorphicCollection.LazyMorphicCollection.Clear | src/main/java/net/mantucon/baracus/orm/LazyMorphicCollection.java:126-129 | after the load, the list is empty |
| NetLazyMorphicCollection.LazyMorphicCollection.Set | src/main/java/net/mantucon/baracus/orm/LazyMorphicCollection.java:171-174 | after the load, the element at the index is replaced and the old one returned, or IndexOutOfBoundsException outside the list |
| NetLazyMorphicCollection.LazyMorphicCollection.Get | src/main/java/net/mantucon/baracus/orm/LazyMorphicCollection.java:91-94 | after the load, the element at the index, or IndexOutOfBoundsException outside the list; the list is unchanged |
| NetLazyMorphicCollection.LazyMorphicCollection.Size | src/main/java/net/mantucon/baracus/orm/LazyMorphicCollection.java:81-84 | after the load, the number of loaded elements; the list is unchanged |
| NetLazyMorphicCollection.LazyMorphicCollection.IsEmpty | src/main/java/net/mantucon/baracus/orm/LazyMorphicCollection.java:181-184 | after the load, whether no element is held |
| NetLazyMorphicCollection.LazyMorphicCollection.Contains | src/main/java/net/mantucon/baracus/orm/LazyMorphicCollection.java:86-89 | after the load, whether the element is held |
| NetLazyMorphicCollection.LazyMorphicCollection.ContainsAll | src/main/java/net/mantucon/baracus/orm/LazyMorphicCollection.java:116-119 | after the load, whether every element of the collection is held |
| NetLazyMorphicCollection.LazyMorphicCollection.IndexOfElement | src/main/java/net/mantucon/baracus/orm/LazyMorphicCollection.java:161-164 | after the load, the first position of the element or -1 |
| NetLazyMorphicCollection.LazyMorphicCollection.LastIndexOfElement | src/main/java/net/mantucon/baracus/orm/LazyMorphicCollection.java:76-79 | after the load, the last position of the element or -1 |
| NetLazyMorphicCollection.LazyMorphicCollection.Snapshot | src/main/java/net/mantucon/baracus/orm/LazyMorphicCollection.java:106-114 | after the load, the elements an iterator or toArray walks over from the position, or IndexOutOfBoundsException for a position outside 0..size |
| NetLazyMorphicCollection.LazyMorphicCollection.Touch | src/main/java/net/mantucon/baracus/orm/LazyMorphicCollection.java:96-99 | ensureCapacity and trimToSize only trigger the load; the list content is the loaded one |
| NetLazyCollection.LazyLoader.LoadReference | src/main/java/net/mantucon/baracus/orm/LazyCollection.java:58 | the loader's result is returned and its invocation count goes up by one |
| NetLazyCollection.LazyCollection.constructor | src/main/java/net/mantucon/baracus/orm/LazyCollection.java:41-43 | a new list is armed and empty and keeps the loader |
| NetLazyCollection.LoadOnceScenario | src/main/java/net/mantucon/baracus/orm/LazyCollection.java:54-67 | a first size() loads, an add() after it appends without loading again, and a second size() counts the items plus one |
| NetLazyCollection.ThrowingLoaderScenario | src/main/java/net/mantucon/baracus/orm/LazyCollection.java:54-61 | a throwing loader fails the first call; the next call sees an empty, loaded list |
| NetLazyMorphicCollection.LazyMorphicCollection.constructor | src/main/java/net/mantucon/baracus/orm/LazyMorphicCollection.java:25-27 | a new view is armed and empty and keeps the loader |
| NetLazyMorphicCollection.LazyMorphicCollection.Morph | src/main/java/net/mantucon/baracus/orm/LazyMorphicCollection.java:34-36 | the view takes the source collection's loader but neither its data nor its state: it starts armed and empty |
| NetLazyMorphicCollection.SharedLoaderScenario | src/main/java/net/mantucon/baracus/orm/LazyMorphicCollection.java:34-53 | a view over an already loaded collection loads again through the shared loader; source and view each hold the items |
| NetLazyMorphicCollection.IdentityScenario | src/main/java/net/mantucon/baracus/orm/LazyMorphicCollection.java:132-134 | equals is identity: a view equals itself but not another view with the same contents |
| NetBaseDao.MappedContentValues | src/main/java/net/mantucon/baracus/dao/BaseDao.java:635-654 | reading back the content values a row mapper writes for a bean with an id gives that bean's state again |
| NetBaseDao.StampedDatesRules | src/main/java/net/mantucon/baracus/dao/BaseDao.java:364-382 | a Timestamped bean leaves save with both dates set: an insert stamps both with now, an update keeps a creation date that was set and always refreshes the modification date; other beans keep their dates |
| NetBaseDao.CreateLazyReference | src/main/java/net/mantucon/baracus/dao/BaseDao.java:594-597 | a NullReference exactly when the id is null, otherwise a lazy reference through the DAO class for that id |
| NetBaseDao.ExampleSelectsAgreeingRows | src/main/java/net/mantucon/baracus/dao/BaseDao.java:532-563 | without wildcards a row satisfies the example's clause exactly when it holds each of the example's values in the same column |
| NetBaseDao.ExampleQuerySelectsAgreeingRows | src/main/java/net/mantucon/baracus/dao/BaseDao.java:532-563 | the rows a query by example without wildcards yields are exactly the table's rows that agree with the example |
| NetBaseDao.ExampleWildcardKeepsExactRows | src/main/java/net/mantucon/baracus/dao/BaseDao.java:549-553 | with wildcards a row holding the example's values still matches when no string value contains '%' or '_' |
| NetBaseDao.ExampleClause | src/main/java/net/mantucon/baracus/dao/BaseDao.java:539-555 | the clause joins one term per content value with " AND ", in the map's order, and the arguments are the values' texts in the same order; every key is visited once |
| NetBaseDao.TxHandle.Commit | src/main/java/net/mantucon/baracus/dao/BaseDao.java:312-315 | the innermost level is marked and ended: the levels and tables are those endTransaction leaves after a successful level |
| NetBaseDao.TxHandle.Rollback | src/main/java/net/mantucon/baracus/dao/BaseDao.java:317-319 | the innermost level is ended unmarked: it fails, and the outermost one restores its snapshot |
| NetBaseDao.BaseDao.constructor | src/main/java/net/mantucon/baracus/dao/BaseDao.java:127-129 | the DAO manages the given class with its row mapper, database and event sink |
| NetBaseDao.BaseDao.IdField | src/main/java/net/mantucon/baracus/dao/BaseDao.java:425-429 | a key column at index 0 named "_id" exactly for ModelBase classes and "id" exactly for the others |
| NetBaseDao.BaseDao.From | src/main/java/net/mantucon/baracus/dao/BaseDao.java:635-654 | a fresh bean holding the mapped state of the current row |
| NetBaseDao.BaseDao.IterateCursor | src/main/java/net/mantucon/baracus/dao/BaseDao.java:446-453 | the cursor ends after its last row; the result maps every row after the current one, in order, each into a fresh bean |
| NetBaseDao.BaseDao.QueryAsWritten | src/main/java/net/mantucon/baracus/dao/BaseDao.java:250-269 | the matching rows in some order: none gives null; otherwise every matching row except the first is mapped, in order |
| NetBaseDao.BaseDao.Query | src/main/java/net/mantucon/baracus/dao/BaseDao.java:250-269 | the corrected query: none gives null; otherwise every matching row is mapped, in order |
| NetBaseDao.BaseDao.GetUniqueByField | src/main/java/net/mantucon/baracus/dao/BaseDao.java:196-220 | no matching row gives null, several give IllegalArgumentException, exactly one gives a fresh bean mapped from that row |
| NetBaseDao.BaseDao.GetById | src/main/java/net/mantucon/baracus/dao/BaseDao.java:163-167 | getUniqueByField on the id column with the id's text ("null" for a null id): none, one mapped bean or IllegalArgumentException |
| NetBaseDao.BaseDao.GetByName | src/main/java/net/mantucon/baracus/dao/BaseDao.java:176-186 | UnsupportedOperationException exactly when the row mapper has no name field; otherwise the unique lookup on that field |
| NetBaseDao.BaseDao.GetByField | src/main/java/net/mantucon/baracus/dao/BaseDao.java:230-241 | via the query as written: no matching row gives null; otherwise all matching rows but the first are mapped |
| NetBaseDao.BaseDao.LoadAll | src/main/java/net/mantucon/baracus/dao/BaseDao.java:275-290 | every row of the table, each once, mapped into fresh beans |
| NetBaseDao.BaseDao.DeleteById | src/main/java/net/mantucon/baracus/dao/BaseDao.java:151-155 | a null id throws NullPointerException and changes nothing; otherwise the rows holding the id are deleted and their number returned |
| NetBaseDao.BaseDao.Delete | src/main/java/net/mantucon/baracus/dao/BaseDao.java:137-149 | a transient bean gives -1 and nothing changes; a persisted one has its rows deleted by id, one delete event is emitted and it becomes transient; a persisted bean without id throws NullPointerException |
| NetBaseDao.BaseDao.DeleteAll | src/main/java/net/mantucon/baracus/dao/BaseDao.java:434-438 | the managed table is emptied and no other table changes |
| NetBaseDao.BaseDao.GetTransaction | src/main/java/net/mantucon/baracus/dao/BaseDao.java:328-331 | one new unmarked level is pushed; the outermost one remembers the tables as its snapshot |
| NetBaseDao.BaseDao.QueryByExample | src/main/java/net/mantucon/baracus/dao/BaseDao.java:532-563 | the rows matching all the example's values ANDed in map order, mapped into fresh beans; without wildcards exactly the rows agreeing with the example |
| NetBaseDao.BaseDao.Stamp | src/main/java/net/mantucon/baracus/dao/BaseDao.java:364-381 | the creation and modification dates become the stamped ones for insert or update; a bean that is not Timestamped keeps its dates |
| NetBaseDao.BaseDao.SaveInsert | src/main/java/net/mantucon/baracus/dao/BaseDao.java:364-374 | the bean gets the new row id and is not transient; the tables and its state are those an insert of its content values produces; the dates are stamped |
| NetBaseDao.BaseDao.CheckVersion | src/main/java/net/mantucon/baracus/dao/BaseDao.java:384-392 | the version check's outcome is the one the stored row's version decides |
| NetBaseDao.BaseDao.SaveUpdate | src/main/java/net/mantucon/baracus/dao/BaseDao.java:375-398 | an OptimisticLockException when the stored version differs, with the tables unchanged; otherwise the version is bumped for locking beans and the row holding the id is updated; the dates are stamped |
| NetBaseDao.BaseDao.LockUpdate | src/main/java/net/mantucon/baracus/dao/BaseDao.java:384-392 | the error is the version check's outcome, and the version is increased exactly when the check passes for a locking bean |
| NetBaseDao.BaseDao.WriteUpdate | src/main/java/net/mantucon/baracus/dao/BaseDao.java:394-396 | the rows holding the bean's id take its content values; no other table changes |
| NetBaseDao.BaseDao.SaveBody | src/main/java/net/mantucon/baracus/dao/BaseDao.java:364-398 | a bean without id or marked transient is inserted, any other one updated; a failed update leaves the tables unchanged |
| NetBaseDao.BaseDao.EndLocalTransaction | src/main/java/net/mantucon/baracus/dao/BaseDao.java:399-406 | the local level is marked exactly when the write succeeded and then ended; levels and tables as endTransaction leaves them |
| NetBaseDao.BaseDao.Save | src/main/java/net/mantucon/baracus/dao/BaseDao.java:349-415 | insert or update as decided by id and transient flag; without a handle the write runs in its own level, committed on success; the tables, the bean's state and the events are those of the specification functions |
| NetBaseDao.BaseDao.SaveTransacted | src/main/java/net/mantucon/baracus/dao/BaseDao.java:357-406 | the write and its local transaction, with the same state rules as save, before any event |
| NetBaseDao.BaseDao.SaveEvents | src/main/java/net/mantucon/baracus/dao/BaseDao.java:408-414 | at most one event: none after an exception, a set change after an insert, a data change after an update |
| NetBaseDao.BaseDao.Notify | src/main/java/net/mantucon/baracus/dao/BaseDao.java:408-414 | exactly the save's events are appended to the event log |
| NetBaseDao.BaseDao.SaveStep | src/main/java/net/mantucon/baracus/dao/BaseDao.java:482 | one save of the loop, recorded: the record holds the bean, its state, its insert flag and what it threw; it extends the chain of the earlier saves and its events follow theirs |
| NetBaseDao.BaseDao.SaveBean | src/main/java/net/mantucon/baracus/dao/BaseDao.java:481-482 | saving the bean at position i keeps the beans before it persisted and leaves every other unsaved bean with the state it had before the loop |
| NetBaseDao.BaseDao.SaveNext | src/main/java/net/mantucon/baracus/dao/BaseDao.java:481-482 | one turn of the loop appends exactly one record; only a failing save's record carries an exception, and a failure marks the enclosing level as having a failed child |
| NetBaseDao.BaseDao.SaveRecordEffect | src/main/java/net/mantucon/baracus/dao/BaseDao.java:364-398 | a recorded save changes only the mapped table; a failed one changes nothing; an insert adds one row with the content values under an unused id; an update gives the rows holding the id the saved state's content values and keeps every other row |
| NetBaseDao.BaseDao.ChainExtend | src/main/java/net/mantucon/baracus/dao/BaseDao.java:481-482 | a save started from the tables the chain ended in extends the chain, and the events of the longer trace are the old ones followed by that save's |
| NetBaseDao.BaseDao.RunExtend | src/main/java/net/mantucon/baracus/dao/BaseDao.java:481-482 | appending the next bean's record keeps the trace aligned with the list, keeps only a failing record throwing, and keeps first saves starting from the states before the loop |
| NetBaseDao.BaseDao.SaveEach | src/main/java/net/mantucon/baracus/dao/BaseDao.java:480-482 | the beans are saved in list order until the first failing save; the trace has one record per save run, only the failing one throwing; the tables are the fold of the saves' effects from the tables before the loop, each save starting where the previous one ended, and a bean saved for the first time starts from its state before the loop; the events are the saves' events in order; every bean up to the failing one is persisted; without a handle the enclosing level is failed exactly when a save failed |
| NetBaseDao.BaseDao.SaveAll | src/main/java/net/mantucon/baracus/dao/BaseDao.java:477-493 | the saves fold as in the loop from the tables before saveAll to the written tables, with their events in order; with a handle, on success, or inside an outer transaction the tables are the written ones; a failure that rolls back saveAll's own outermost transaction restores the tables saveAll began with; the levels as commit or rollback leave them |
| NetBaseDao.BaseDao.EndOwnTransaction | src/main/java/net/mantucon/baracus/dao/BaseDao.java:485-491 | a local transaction is committed when every save succeeded and rolled back otherwise; only an outermost rollback changes the tables, back to the snapshot |
| NetBaseDao.NestedSaveEnd | src/main/java/net/mantucon/baracus/dao/BaseDao.java:399-406 | ending a save's own level inside saveAll's unmarked level records a failure there exactly when the save failed |
| NetConfigurationDao.RowMapperWellFormed | src/main/java/net/mantucon/baracus/dao/ConfigurationDao.java:31-74 | the row mapper's columns are distinct, its name field is one of its attributes and its key column is "id" |
| NetConfigurationDao.From | src/main/java/net/mantucon/baracus/dao/ConfigurationDao.java:36-43 | a fresh, non-transient configuration parameter whose id, name and value are read from the current row (NULL read as null) |
| NetConfigurationDao.GetContentValues | src/main/java/net/mantucon/baracus/dao/ConfigurationDao.java:56-62 | the id, the name and the value are each present exactly when non-null, and nothing else |
| NetConfigurationDao.ContentValuesAgree | src/main/java/net/mantucon/baracus/dao/ConfigurationDao.java:56-62 | the hand-written content values are those of the generic row mapper description, so the DAO's rules apply |
| NetConfigurationDao.FromContentValues | src/main/java/net/mantucon/baracus/dao/ConfigurationDao.java:36-62 | round trip: reading back the content values of a saved parameter gives its id, name and value again |
| NetConfigurationDao.NewConfigurationDao | src/main/java/net/mantucon/baracus/dao/ConfigurationDao.java:29-74 | a BaseDao over ConfigurationParameter with this row mapper, keyed by "id", valid on a database whose configuration table is keyed by "id" |
| OrgBaracusOpenHelper.SqlDatabase.Apply | src/main/java/org/baracus/dao/BaracusOpenHelper.java:120 | applying a migration step to the database appends exactly that step to the database's applied history |
| OrgBaracusOpenHelper.BoundVersionsSpec | src/main/java/org/baracus/dao/BaracusOpenHelper.java:158-160 | the versions onUpgrade visits are exactly the bound versions in (old, new], strictly increasing, none left out |
| OrgBaracusOpenHelper.UpgradeInVersionOrder | src/main/java/org/baracus/dao/BaracusOpenHelper.java:157-167 | onUpgrade applies the step bound to each visited version, one per bound version, in ascending version order |
| OrgBaracusOpenHelper.NoDowngrade | src/main/java/org/baracus/dao/BaracusOpenHelper.java:158 | when the new version is not above the old one nothing is applied |
| OrgBaracusOpenHelper.UnboundRangeSkipped | src/main/java/org/baracus/dao/BaracusOpenHelper.java:160-165 | versions without a bound step are skipped: a range with none applies nothing |
| OrgBaracusOpenHelper.UpgradeInLegs | src/main/java/org/baracus/dao/BaracusOpenHelper.java:157-167 | upgrading old to new in one call applies the same steps as upgrading old to mid and then mid to new |
| OrgBaracusOpenHelper.NextCounter | src/main/java/org/baracus/dao/BaracusOpenHelper.java:158 | the loop counter's ++i stays a 32-bit int: it adds one below Integer.MAX_VALUE and wraps to Integer.MIN_VALUE at it |
| OrgBaracusOpenHelper.UpgradeToMaxNeverEnds | src/main/java/org/baracus/dao/BaracusOpenHelper.java:158 | with newVersion = Integer.MAX_VALUE the guard i <= newVersion holds for every int and the counter wraps below its old value, so the loop never ends |
| OrgBaracusOpenHelper.BaracusOpenHelper.constructor | src/main/java/org/baracus/dao/BaracusOpenHelper.java:93-108 | a new helper keeps the database name and target version, is open, and its step registry holds only the initial model bound to version 110 |
| OrgBaracusOpenHelper.BaracusOpenHelper.GetInitialModel | src/main/java/org/baracus/dao/BaracusOpenHelper.java:127-129 | the initial model is ModelVersion000 |
| OrgBaracusOpenHelper.BaracusOpenHelper.AddMigrationStep | src/main/java/org/baracus/dao/BaracusOpenHelper.java:141-146 | adding a step fails with VersionNumberAlreadyBoundException exactly when its version is already bound, leaving the registry unchanged; otherwise binds the step to its version |
| OrgBaracusOpenHelper.BaracusOpenHelper.OnUpgrade | src/main/java/org/baracus/dao/BaracusOpenHelper.java:157-167 | the database receives exactly the bound steps of (old, new] in version order (the 32-bit wrap is exhibited by UpgradeToMaxNeverEnds) |
| OrgBaracusOpenHelper.BaracusOpenHelper.OnCreate | src/main/java/org/baracus/dao/BaracusOpenHelper.java:117-124 | creation applies the initial model and then upgrades from its version to the target version |
| OrgBaracusOpenHelper.BaracusOpenHelper.OnDestroy | src/main/java/org/baracus/dao/BaracusOpenHelper.java:169-177 | the helper is closed afterwards unless close throws, which is swallowed |
| OrgBaracusOpenHelper.InitialModelAppliedTwice | src/main/java/org/baracus/dao/BaracusOpenHelper.java:93-95 | with only the class initialiser's binding, creating a database at a target of 110 or more applies ModelVersion000 twice: once as the initial model (version 1) and again as the step bound to 110 |
| OrgBaracusOpenHelper.PreboundVersionScenario | src/main/java/org/baracus/dao/BaracusOpenHelper.java:141-146 | registering a second step for version 110 is refused with VersionNumberAlreadyBoundException |
| NetErrorHandlingFactory.StoredValues | src/main/java/net/mantucon/baracus/errorhandling/ErrorHandlingFactory.java:49-66 | the stored value array holds the message id, then the severity, then every parameter in order, and is two longer than the parameters |
| NetErrorHandlingFactory.ErrorKey | src/main/java/net/mantucon/baracus/errorhandling/ErrorHandlingFactory.java:51-56 | an error is keyed by the id of the custom handler registered for the affected resource, or by the resource itself when none is |
| NetErrorHandlingFactory.WithError | src/main/java/net/mantucon/baracus/errorhandling/ErrorHandlingFactory.java:43-70 | adding an error stores the values under the error key of the container's map, creating that map if absent, and leaves every other container alone |
| NetErrorHandlingFactory.PutIsWithError | src/main/java/net/mantucon/baracus/errorhandling/ErrorHandlingFactory.java:44-69 | creating the container's map when missing and then putting the values into it gives WithError |
| NetErrorHandlingFactory.WithErrorHasErrors | src/main/java/net/mantucon/baracus/errorhandling/ErrorHandlingFactory.java:135-140 | after adding an error the container has errors and every other view has errors exactly as before |
| NetErrorHandlingFactory.LaterErrorReplaces | src/main/java/net/mantucon/baracus/errorhandling/ErrorHandlingFactory.java:69 | adding a second error for the same resource replaces the first |
| NetErrorHandlingFactory.StoredArray | src/main/java/net/mantucon/baracus/errorhandling/ErrorHandlingFactory.java:49-66 | the loop fills a fresh array with exactly the stored values |
| NetErrorHandlingFactory.ErrorHandlingFactory.constructor | src/main/java/net/mantucon/baracus/errorhandling/ErrorHandlingFactory.java:24-26 | a new factory has no errors, no custom and no standard handlers |
| NetErrorHandlingFactory.ErrorHandlingFactory.AddErrorToView | src/main/java/net/mantucon/baracus/errorhandling/ErrorHandlingFactory.java:43-70 | the error map becomes WithError of the old one, so the container has errors afterwards |
| NetErrorHandlingFactory.ErrorHandlingFactory.ViewHasErrors | src/main/java/net/mantucon/baracus/errorhandling/ErrorHandlingFactory.java:135-140 | a view has errors exactly when it is in the error map with a non-empty assignment |
| NetErrorHandlingFactory.ErrorHandlingFactory.ResetErrors | src/main/java/net/mantucon/baracus/errorhandling/ErrorHandlingFactory.java:146-167 | a known container's assignment is emptied, an unknown one is not added; afterwards it has no errors and no other view changes |
| NetErrorHandlingFactory.ErrorHandlingFactory.RegisterCustomErrorHandler | src/main/java/net/mantucon/baracus/errorhandling/ErrorHandlingFactory.java:175-179 | a handler is bound to its idToDisplayFor, replacing an earlier one, unless that id is -1 |
| NetErrorHandlingFactory.ErrorHandlingFactory.UnregisterCustomErrorHandlersForView | src/main/java/net/mantucon/baracus/errorhandling/ErrorHandlingFactory.java:187-189 | the container's errors are removed from the error map, nothing else |
| NetErrorHandlingFactory.ErrorHandlingFactory.RegisterStandardErrorHandler | src/main/java/net/mantucon/baracus/errorhandling/ErrorHandlingFactory.java:198-200 | the handler joins the set of standard handlers |
| NetErrorHandlingFactory.ErrorHandlingFactory.OnDestroy | src/main/java/net/mantucon/baracus/errorhandling/ErrorHandlingFactory.java:203-208 | custom handlers, standard handlers and errors are all cleared |
| NetErrorHandlingFactory.ErrorHandlingFactory.PostConstruct | src/main/java/net/mantucon/baracus/errorhandling/ErrorHandlingFactory.java:210-213 | one new TextEditErrorHandler joins the standard handlers, so their number grows by one |
| NetValidationFactory.FirstFailing | src/main/java/net/mantucon/baracus/validation/ValidationFactory.java:104-114 | the validator loop stops at the first named validator that is bound and rejects the value: none before it fails, and None exactly when no name fails |
| NetValidationFactory.OwnViolationsSpec | src/main/java/net/mantucon/baracus/validation/ValidationFactory.java:100-116 | a constrained view reports at most one violation, exactly when one of its named validators rejects it, and that violation names the view |
| NetValidationFactory.OwnViolationsAt | src/main/java/net/mantucon/baracus/validation/ValidationFactory.java:104-114 | when the k-th name is the first failing one, the view's single violation is that validator's |
| NetValidationFactory.ViolationsAreGenuine | src/main/java/net/mantucon/baracus/validation/ValidationFactory.java:99-127 | every violation the recursive walk reports is one its validator really rejects |
| NetValidationFactory.Record | src/main/java/net/mantucon/baracus/validation/ValidationFactory.java:109-110 | recording no violations changes nothing and throws nothing |
| NetValidationFactory.RecordAppend | src/main/java/net/mantucon/baracus/validation/ValidationFactory.java:99-127 | recording two runs of violations is recording the first and, unless it threw, then the second |
| NetValidationFactory.RecordTouchesOnlyRoot | src/main/java/net/mantucon/baracus/validation/ValidationFactory.java:110 | recording violations only adds errors under the root view; every other view's errors stay as they were |
| NetValidationFactory.RecordMarksRoot | src/main/java/net/mantucon/baracus/validation/ValidationFactory.java:110 | once at least one violation is recorded without a throw, the root view has errors |
| NetValidationFactory.NoFactoryThrows | src/main/java/net/mantucon/baracus/validation/ValidationFactory.java:33-34 | with no ErrorHandlingFactory injected the first violation throws NullPointerException and records nothing |
| NetValidationFactory.LeafFirstFailingWins | src/main/java/net/mantucon/baracus/validation/ValidationFactory.java:99-127 | a constrained leaf view's only violation is that of its first failing validator |
| NetValidationFactory.AllAcceptingReportsNothing | src/main/java/net/mantucon/baracus/validation/ValidationFactory.java:104-114 | a view all of whose validators accept it reports no violation of its own |
| NetValidationFactory.RecordStopsAtThrow | src/main/java/net/mantucon/baracus/validation/ValidationFactory.java:109-110 | once recording throws, later violations are not recorded |
| NetValidationFactory.VerifyDoesNotTrim | src/main/java/net/mantucon/baracus/validation/ValidationFactory.java:78-88 | verifyValidators splits on commas without trimming, so "a, b" looks up " b" while the validation walk trims it to "b" |
| NetValidationFactory.FirstLowered | src/main/java/net/mantucon/baracus/validation/ValidationFactory.java:69 | a name equal to the simple name with its first character lowered is what firstByteToLower gives |
| NetValidationFactory.ValidationFactory.constructor | src/main/java/net/mantucon/baracus/validation/ValidationFactory.java:29-34 | a new factory has no named validators and no injected ErrorHandlingFactory |
| NetValidationFactory.ValidationFactory.RegisterValidator | src/main/java/net/mantucon/baracus/validation/ValidationFactory.java:59-61 | the validator is bound to the name, replacing an earlier one |
| NetValidationFactory.ValidationFactory.RegisterValidatorByClass | src/main/java/net/mantucon/baracus/validation/ValidationFactory.java:68-71 | an empty simple name throws StringIndexOutOfBounds and registers nothing; otherwise the validator is bound to its simple name with the first character lowered |
| NetValidationFactory.ValidationFactory.VerifyValidators | src/main/java/net/mantucon/baracus/validation/ValidationFactory.java:78-88 | throws InvalidValidatorNameException for the first unbound comma-separated name, all before it bound; throws nothing exactly when the list is null, blank or fully bound |
| NetValidationFactory.ValidationFactory.Report | src/main/java/net/mantucon/baracus/validation/ValidationFactory.java:109-112 | a rejected view's error is added under the root as Record of that one violation specifies |
| NetValidationFactory.ValidationFactory.ValidateOwn | src/main/java/net/mantucon/baracus/validation/ValidationFactory.java:100-116 | a constrained view records exactly its own violations |
| NetValidationFactory.ValidationFactory.ValidateNames | src/main/java/net/mantucon/baracus/validation/ValidationFactory.java:104-114 | the validator loop records exactly the first violation among the names |
| NetValidationFactory.ValidationFactory.ValidateViewFrom | src/main/java/net/mantucon/baracus/validation/ValidationFactory.java:99-127 | the walk from a view records exactly the violations of that view and its descendants, in walk order |
| NetValidationFactory.ValidationFactory.ValidateChildren | src/main/java/net/mantucon/baracus/validation/ValidationFactory.java:118-126 | the child loop records exactly the violations of the non-null children, in child order |
| NetValidationFactory.ValidationFactory.ValidateView | src/main/java/net/mantucon/baracus/validation/ValidationFactory.java:135-137 | validating a view records its whole tree's violations under itself, marks it as having errors when there were any, and leaves other views' errors alone |
| NetValidationFactory.ValidationFactory.PostConstruct | src/main/java/net/mantucon/baracus/validation/ValidationFactory.java:143-149 | the five built-in validators are registered under their lowered class names |
| NetValidationFactory.ValidationFactory.OnDestroy | src/main/java/net/mantucon/baracus/validation/ValidationFactory.java:152-154 | all named validators are removed |
| ListenerTables.AfterEmit | src/main/java/org/baracus/context/BaracusApplicationContext.java:365-375 | emitting to a single listener removes it exactly when it throws and changes no other entry |
| ListenerTables.EmitCall | src/main/java/org/baracus/context/BaracusApplicationContext.java:394-404 | an emit calls the class's listener once when one is registered and nobody otherwise |
| ListenerTables.ThrowerSilenced | src/main/java/org/baracus/context/BaracusApplicationContext.java:365-375 | a listener that threw is gone: later emits call nobody until a listener is registered again |
| ListenerTables.WithListener | src/main/java/org/baracus/context/BaracusApplicationContext.java:414-422 | registering adds the listener to the class's set, creating it when absent, and leaves other classes alone |
| ListenerTables.WithoutListener | src/main/java/org/baracus/context/BaracusApplicationContext.java:429-435 | unregistering removes the listener from every class's set and nothing else |
| ListenerTables.Freed | src/main/java/org/baracus/context/BaracusApplicationContext.java:494-499 | freeing empties the class's set, keeps the key, and leaves other classes alone |
| ListenerTables.Calls | src/main/java/org/baracus/context/BaracusApplicationContext.java:449-450 | an emit makes one call per listener, in iteration order, with the same method and arguments |
| ListenerTables.EmitStep | src/main/java/org/baracus/context/BaracusApplicationContext.java:448-455 | each loop step calls one not yet visited listener and drops it from the set when it throws |
| ListenerTables.EmitFinished | src/main/java/org/baracus/context/BaracusApplicationContext.java:448-455 | after the loop every listener was called once and the set holds exactly those that did not throw |
| ListenerTables.EmitAll | src/main/java/org/baracus/context/BaracusApplicationContext.java:442-459 | every registered listener is called exactly once, in some order, and the throwers are removed from the set |
| ListenerTables.NoneHitStep | src/main/java/org/baracus/context/BaracusApplicationContext.java:448-455 | a step keeps the no-CME condition while the listener it visits did not throw or was the last one |
| ListenerTables.NoneHitFinished | src/main/java/org/baracus/context/BaracusApplicationContext.java:448-455 | a loop that raised no ConcurrentModificationException saw at most one thrower, and none when the set is untouched |
| ListenerTables.EmitAsWritten | src/main/java/org/baracus/context/BaracusApplicationContext.java:442-459 | as written, removing a thrower inside the for-each raises ConcurrentModificationException on the next step unless it was the last: two throwers always do, and the listeners after it are not called |
| ListenerTables.SharedNotDisjoint | src/main/java/org/baracus/context/BaracusApplicationContext.java:453 | a listener both registered and throwing makes the throwers overlap the set |
| NetValidationFactory.ValidationFactory.ValidateSlot | src/main/java/net/mantucon/baracus/validation/ValidationFactory.java:120-125 | one child slot: a null child records nothing, otherwise the child's whole subtree is recorded, and a throw there is the loop's outcome |
| NetValidationFactory.BuiltinNamesLowered | src/main/java/net/mantucon/baracus/validation/ValidationFactory.java:143-149 | the five built-in simple names lower to the registry names stringNotEmpty, stringIsNumericDouble, stringIsNumericInteger, numberMustBeGreaterThanZero and dateFromNow |
| NetValidationFactory.ValidationFactory.RegisterBuiltin | src/main/java/net/mantucon/baracus/validation/ValidationFactory.java:68-71 | registering a validator whose lowered simple name is known adds exactly that entry |
| NetBeanContainer.BeanContainer.constructor | src/main/java/net/mantucon/baracus/context/BeanContainer.java:30-40 | a new container has no registered classes, no known fragments and no activities |
| NetBeanContainer.BeanContainer.HoldBean | src/main/java/net/mantucon/baracus/context/BeanContainer.java:274-280 | the instance is stored under its class and, when it is a Fragment, joins the known fragments |
| NetBeanContainer.BeanContainer.RemoveBean | src/main/java/net/mantucon/baracus/context/BeanContainer.java:286-289 | the class stays registered with a null instance |
| NetBeanContainer.BeanContainer.RegisterBeanClass | src/main/java/net/mantucon/baracus/context/BeanContainer.java:298-308 | an unregistered class is registered with a null instance; a registered one, and its instance, are kept |
| NetBeanContainer.BeanContainer.InstantiateBean | src/main/java/net/mantucon/baracus/context/BeanContainer.java:247-267 | succeeds exactly when the class has a usable constructor: then one fresh object of the class is built with the chosen constructor and held; otherwise InstantiationException and nothing changes |
| NetBeanContainer.BeanContainer.CreateOne | src/main/java/net/mantucon/baracus/context/BeanContainer.java:91-99 | instantiating one null slot keeps the creation invariant and fills that slot unless it threw |
| NetBeanContainer.BeanContainer.CreateInstances | src/main/java/net/mantucon/baracus/context/BeanContainer.java:90-102 | on success every registered class holds an instance and every formerly null one was instantiable; a failure is an IntantiationException; filled slots are never replaced |
| NetBeanContainer.BeanContainer.InjectFromClass | src/main/java/net/mantucon/baracus/context/BeanContainer.java:143-168 | one candidate class sets the field to that class's bean when the type names match, else to the database or open helper handle for those types, else leaves it alone |
| NetBeanContainer.BeanContainer.InjectField | src/main/java/net/mantucon/baracus/context/BeanContainer.java:142-170 | only the one field changes; it ends injected as the candidate loop specifies, and fails exactly when a needed database or open helper handle is unavailable |
| NetBeanContainer.BeanContainer.PerformInjection | src/main/java/net/mantucon/baracus/context/BeanContainer.java:140-172 | a null object throws NullPointerException and changes nothing; otherwise only that object's fields change, it fails exactly when the object is not injectable, and on success every declared field is injected |
| NetBeanContainer.BeanContainer.PerformInjectionOn | src/main/java/net/mantucon/baracus/context/BeanContainer.java:140-172 | only the object's fields change; success exactly when injectable, and then every declared field, own and inherited, is injected |
| NetBeanContainer.BeanContainer.PerformInjectionOfClass | src/main/java/net/mantucon/baracus/context/BeanContainer.java:131-134 | injects the class's held bean; a null bean throws NullPointerException and changes nothing |
| NetBeanContainer.BeanContainer.InjectEach | src/main/java/net/mantucon/baracus/context/BeanContainer.java:119-125 | injecting every slot succeeds exactly when all are injectable, injects exactly their instances and leaves every other object alone |
| NetBeanContainer.BeanContainer.PerformInjections | src/main/java/net/mantucon/baracus/context/BeanContainer.java:119-125 | succeeds exactly when every held bean is injectable, and then each is injected; objects that are not beans are untouched |
| NetBeanContainer.BeanContainer.OutjectField | src/main/java/net/mantucon/baracus/context/BeanContainer.java:221-230 | a field whose type is a registered class is set to null; other fields are left alone |
| NetBeanContainer.BeanContainer.PerformOutjectionOn | src/main/java/net/mantucon/baracus/context/BeanContainer.java:218-234 | every declared field of the object, own and inherited, typed by a registered class is nulled and nothing else changes |
| NetBeanContainer.BeanContainer.PerformOutjectionOfClass | src/main/java/net/mantucon/baracus/context/BeanContainer.java:209-216 | outjects the class's held bean; with none held nothing changes |
| NetBeanContainer.BeanContainer.OutjectAll | src/main/java/net/mantucon/baracus/context/BeanContainer.java:196-198 | every held bean is outjected exactly and every other object is untouched |
| NetBeanContainer.BeanContainer.RemoveAll | src/main/java/net/mantucon/baracus/context/BeanContainer.java:200-202 | every registered class stays registered with a null instance |
| NetBeanContainer.BeanContainer.PerformDestruction | src/main/java/net/mantucon/baracus/context/BeanContainer.java:195-203 | every held bean is outjected, then every instance is released while the classes stay registered |
| NetBeanContainer.BeanContainer.PerformPostConstuct | src/main/java/net/mantucon/baracus/context/BeanContainer.java:107-114 | postConstruct is called once on each held bean that is Initializeable, in some order of the registered classes, and on nothing else |
| NetBeanContainer.BeanContainer.DestroyHeld | src/main/java/net/mantucon/baracus/context/BeanContainer.java:314-318 | onDestroy is called once on each held bean that is Destroyable, and on nothing else |
| NetBeanContainer.BeanContainer.ShutdownContext | src/main/java/net/mantucon/baracus/context/BeanContainer.java:313-321 | the Destroyable beans are destroyed, then every bean is outjected and released, the classes staying registered |
| NetBeanContainer.BeanContainer.AddActiveActivity | src/main/java/net/mantucon/baracus/context/BeanContainer.java:329-331 | the activity is recorded under its class, replacing an earlier one, and no other entry changes |
| NetBeanContainer.BeanContainer.AddExistingActivity | src/main/java/net/mantucon/baracus/context/BeanContainer.java:332-334 | the activity is recorded under its class among the existing activities |
| NetBeanContainer.BeanContainer.AddPausedActivity | src/main/java/net/mantucon/baracus/context/BeanContainer.java:335-337 | the activity is recorded under its class among the paused activities |
| NetBeanContainer.BeanContainer.RemoveActiveActivity | src/main/java/net/mantucon/baracus/context/BeanContainer.java:339-341 | the entry for the activity's class is removed and no other entry changes |
| NetBeanContainer.BeanContainer.RemoveExistingActivity | src/main/java/net/mantucon/baracus/context/BeanContainer.java:342-344 | the entry for the activity's class is removed from the existing activities |
| NetBeanContainer.BeanContainer.RemovePausedActivity | src/main/java/net/mantucon/baracus/context/BeanContainer.java:345-347 | the entry for the activity's class is removed from the paused activities |
| NetBeanContainer.BeanContainer.ActiveSlots | src/main/java/net/mantucon/baracus/context/BeanContainer.java:386-388 | the activities injected are exactly the active ones, one per class |
| NetBeanContainer.BeanContainer.InjectFragment | src/main/java/net/mantucon/baracus/context/BeanContainer.java:391-396 | a known fragment that cannot be injected is dropped from the known fragments; one that can is injected and kept |
| NetBeanContainer.BeanContainer.InjectFragments | src/main/java/net/mantucon/baracus/context/BeanContainer.java:391-397 | with the removal done after the iteration, every known fragment is visited: the injectable ones are injected and kept, the others dropped |
| NetBeanContainer.BeanContainer.VisitFragmentAsWritten | src/main/java/net/mantucon/baracus/context/BeanContainer.java:391-396 | one visit of the loop as written: a failing fragment is removed from the set being iterated |
| NetBeanContainer.BeanContainer.InjectFragmentsAsWritten | src/main/java/net/mantucon/baracus/context/BeanContainer.java:391-397 | as written, removing a failing fragment inside the for-each makes the next step throw ConcurrentModificationException: two or more fragments none of which can be injected always do; without the throw the outcome is as in InjectFragments |
| NetBeanContainer.BeanContainer.TreatKnownUiComponents | src/main/java/net/mantucon/baracus/context/BeanContainer.java:385-398 | the active activities are injected, failing exactly when one is not injectable and then leaving the known fragments alone; otherwise fragments are only ever dropped and no other object changes |
| OrgBeanContainer.BeanContainer.constructor | src/main/java/org/baracus/context/BeanContainer.java:30-42 | a new container has no registered classes, no interface bindings, no known fragments and no activities |
| OrgBeanContainer.BeanContainer.RegisterBeanClass | src/main/java/org/baracus/context/BeanContainer.java:314-323 | an unregistered class is registered with a null instance; a registered one, and its instance, are kept |
| OrgBeanContainer.BeanContainer.BindBeanClass | src/main/java/org/baracus/context/BeanContainer.java:333-350 | an implementation not assignable to the supertype throws IncompatibleTypesException with the source's message and changes nothing; otherwise the supertype is bound to it and both classes are registered, keeping existing instances |
| OrgBeanContainer.BeanContainer.ReplaceBeanClass | src/main/java/org/baracus/context/BeanContainer.java:359-364 | the supertype's binding and slot are dropped first, so an incompatible implementation leaves it unregistered; otherwise it is re-registered with a null instance and bound to the implementation |
| OrgBeanContainer.BeanContainer.InstantiatePojo | src/main/java/org/baracus/context/BeanContainer.java:262-281 | succeeds exactly when the class has a public no-argument or Context constructor: then one fresh object of the class is built with the first such constructor; otherwise InstantiationException and the heap is unchanged |
| OrgBeanContainer.BeanContainer.HoldBean | src/main/java/org/baracus/context/BeanContainer.java:289-295 | the instance is stored under its class and, when it is a Fragment, joins the known fragments |
| OrgBeanContainer.BeanContainer.RemoveBean | src/main/java/org/baracus/context/BeanContainer.java:302-305 | the class stays registered with a null instance |
| OrgBeanContainer.BeanContainer.InstantiateSingletonBean | src/main/java/org/baracus/context/BeanContainer.java:233-251 | an existing instance of the bound implementation (or of the class itself) is reused; otherwise one fresh instance is built and held under both the implementation and the class, failing exactly when the implementation is not instantiable |
| OrgBeanContainer.BeanContainer.CreateOne | src/main/java/org/baracus/context/BeanContainer.java:60-67 | instantiating one null slot keeps the creation invariant and fills that slot unless it threw |
| OrgBeanContainer.BeanContainer.CreateInstances | src/main/java/org/baracus/context/BeanContainer.java:58-70 | on success every registered class holds an instance and every formerly null unbound one was instantiable; a failure is an IntantiationException; bindings are unchanged and filled slots are never replaced; it walks a snapshot of the keys, the corrected half of the createInstances finding |
| OrgBeanContainer.BeanContainer.CreateInstancesAsWritten | src/main/java/org/baracus/context/BeanContainer.java:58-70 | as written, over the live key set: an IntantiationException names a class whose implementation is not instantiable; ConcurrentModificationException is raised only after holdBean added a key, never while every binding's implementation is registered, and always when two null supertypes share an unregistered implementation |
| OrgBeanContainer.RejectedReplacement | src/main/java/org/baracus/context/BeanContainer.java:333-364 | two supertypes bound to one implementation, then a replaceBeanClass of that implementation that is rejected: both bindings stay while the implementation is no longer registered |
| OrgBeanContainer.OrphanedBindingScenario | src/main/java/org/baracus/context/BeanContainer.java:58-70 | after RejectedReplacement, createInstances as written throws ConcurrentModificationException although every class involved can be instantiated |
| OrgBeanContainer.BeanContainer.InjectFromClass | src/main/java/org/baracus/context/BeanContainer.java:120-154 | one candidate class sets the field to that class's bean when the type names match, else to the database, open helper or (outside a ManagedActivity) application context for those types, else leaves it alone |
| OrgBeanContainer.BeanContainer.InjectField | src/main/java/org/baracus/context/BeanContainer.java:119-156 | only the one field changes; it ends injected as the candidate loop specifies, and fails exactly when a needed database or open helper handle is unavailable |
| OrgBeanContainer.BeanContainer.PerformInjection | src/main/java/org/baracus/context/BeanContainer.java:117-157 | a null object throws NullPointerException and changes nothing; otherwise only that object's fields change, it fails exactly when the object is not injectable, and on success every declared field is injected |
| OrgBeanContainer.BeanContainer.PerformInjectionOn | src/main/java/org/baracus/context/BeanContainer.java:117-157 | only the object's fields change; success exactly when injectable, and then every declared field, own and inherited, is injected |
| OrgBeanContainer.BeanContainer.PerformInjectionOfClass | src/main/java/org/baracus/context/BeanContainer.java:107-110 | injects the class's held bean; a null bean throws NullPointerException and changes nothing |
| OrgBeanContainer.BeanContainer.InjectEach | src/main/java/org/baracus/context/BeanContainer.java:94-100 | injecting every slot succeeds exactly when all are injectable, injects exactly their instances and leaves every other object alone |
| OrgBeanContainer.BeanContainer.PerformInjections | src/main/java/org/baracus/context/BeanContainer.java:94-100 | succeeds exactly when every held bean is injectable, and then each is injected; objects that are not beans are untouched |
| OrgBeanContainer.BeanContainer.OutjectField | src/main/java/org/baracus/context/BeanContainer.java:207-218 | a field whose type is a registered class is set to null; other fields are left alone |
| OrgBeanContainer.BeanContainer.PerformOutjectionOn | src/main/java/org/baracus/context/BeanContainer.java:204-220 | every declared field of the object, own and inherited, typed by a registered class is nulled and nothing else changes |
| OrgBeanContainer.BeanContainer.PerformOutjectionOfClass | src/main/java/org/baracus/context/BeanContainer.java:195-202 | outjects the class's held bean; with none held nothing changes |
| OrgBeanContainer.BeanContainer.OutjectAll | src/main/java/org/baracus/context/BeanContainer.java:180-182 | every held bean is outjected exactly and every other object is untouched |
| OrgBeanContainer.BeanContainer.RemoveAll | src/main/java/org/baracus/context/BeanContainer.java:184-186 | every registered class stays registered with a null instance |
| OrgBeanContainer.BeanContainer.PerformDestruction | src/main/java/org/baracus/context/BeanContainer.java:179-188 | every held bean is outjected, then every instance is released while the classes stay registered |
| OrgBeanContainer.BeanContainer.PerformPostConstructOn | src/main/java/org/baracus/context/BeanContainer.java:84-89 | postConstruct is called on the object exactly when it is Initializeable |
| OrgBeanContainer.BeanContainer.PerformPostConstuct | src/main/java/org/baracus/context/BeanContainer.java:75-82 | the held instances are collected into a set first, so postConstruct is called exactly once on each distinct Initializeable instance, even one held under several classes |
| OrgBeanContainer.BeanContainer.DestroyHeld | src/main/java/org/baracus/context/BeanContainer.java:370-374 | onDestroy is called on each held Destroyable instance once per class holding it, and on nothing else |
| OrgBeanContainer.BeanContainer.ShutdownContext | src/main/java/org/baracus/context/BeanContainer.java:369-377 | the Destroyable beans are destroyed, then every bean is outjected and released, the classes staying registered |
| OrgBeanContainer.BeanContainer.AddActiveActivity | src/main/java/org/baracus/context/BeanContainer.java:385-387 | the activity is recorded under its class, replacing an earlier one, and no other entry changes |
| OrgBeanContainer.BeanContainer.AddExistingActivity | src/main/java/org/baracus/context/BeanContainer.java:389-391 | the activity is recorded under its class among the existing activities |
| OrgBeanContainer.BeanContainer.AddPausedActivity | src/main/java/org/baracus/context/BeanContainer.java:393-395 | the activity is recorded under its class among the paused activities |
| OrgBeanContainer.BeanContainer.RemoveActiveActivity | src/main/java/org/baracus/context/BeanContainer.java:397-399 | the entry for the activity's class is removed and no other entry changes |
| OrgBeanContainer.BeanContainer.RemoveExistingActivity | src/main/java/org/baracus/context/BeanContainer.java:401-403 | the entry for the activity's class is removed from the existing activities |
| OrgBeanContainer.BeanContainer.RemovePausedActivity | src/main/java/org/baracus/context/BeanContainer.java:405-407 | the entry for the activity's class is removed from the paused activities |
| OrgBeanContainer.BeanContainer.GetBean | src/main/java/org/baracus/context/BeanContainer.java:460-466 | the held bean when there is one, else the active activity of exactly that class, else null |
| OrgBeanContainer.BeanContainer.ActiveSlots | src/main/java/org/baracus/context/BeanContainer.java:446-448 | the activities injected are exactly the active ones, one per class |
| OrgBeanContainer.BeanContainer.InjectFragment | src/main/java/org/baracus/context/BeanContainer.java:451-456 | a known fragment that cannot be injected is dropped from the known fragments; one that can is injected and kept |
| OrgBeanContainer.BeanContainer.InjectFragments | src/main/java/org/baracus/context/BeanContainer.java:450-457 | with the removal done after the iteration, every known fragment is visited: the injectable ones are injected and kept, the others dropped |
| OrgBeanContainer.BeanContainer.VisitFragmentAsWritten | src/main/java/org/baracus/context/BeanContainer.java:451-456 | one visit of the loop as written: a failing fragment is removed from the set being iterated |
| OrgBeanContainer.BeanContainer.InjectFragmentsAsWritten | src/main/java/org/baracus/context/BeanContainer.java:450-457 | as written, removing a failing fragment inside the for-each makes the next step throw ConcurrentModificationException: two or more fragments none of which can be injected always do; without the throw the outcome is as in InjectFragments |
| OrgBeanContainer.BeanContainer.TreatKnownUiComponents | src/main/java/org/baracus/context/BeanContainer.java:445-458 | the active activities are injected, failing exactly when one is not injectable and then leaving the known fragments alone; otherwise fragments are only ever dropped and no other object changes |
| NetBaracusApplicationContext.ApplicationContext.constructor | src/main/java/net/mantucon/baracus/context/BaracusApplicationContext.java:76-100 | before construction the context is uninitialised with no callbacks, no listeners and the container holding only the ConfigurationDao class, unbuilt |
| NetBaracusApplicationContext.ApplicationContext.Construct | src/main/java/net/mantucon/baracus/context/BaracusApplicationContext.java:104-107 | constructing the application sets the instance and runs make: a fresh callback object is registered and the reference count grows by one |
| NetBaracusApplicationContext.ApplicationContext.Make | src/main/java/net/mantucon/baracus/context/BaracusApplicationContext.java:130-192 | since the semaphore is never set, every call creates a fresh callback object and registers it; without an instance the registration throws NullPointerException before the count grows, otherwise the count grows by one |
| NetBaracusApplicationContext.ApplicationContext.BuildContainer | src/main/java/net/mantucon/baracus/context/BaracusApplicationContext.java:119-128 | instantiate, inject, post-construct, treat UI components: on success every registered class holds an instance, no slot was replaced, the beans are injected and the postConstruct calls end the heap's log |
| NetBaracusApplicationContext.ApplicationContext.CreateAll | src/main/java/net/mantucon/baracus/context/BaracusApplicationContext.java:121 | createInstances fills every slot without replacing a filled one |
| NetBaracusApplicationContext.ApplicationContext.WireContainer | src/main/java/net/mantucon/baracus/context/BaracusApplicationContext.java:122-124 | injections, post-construction and UI treatment on the created beans: injected as BuiltFrom states and postConstruct called last |
| NetBaracusApplicationContext.ApplicationContext.InitApplicationContext | src/main/java/net/mantucon/baracus/context/BaracusApplicationContext.java:119-128 | a second call does nothing; a first call builds the container and is marked initialised exactly when building throws nothing |
| NetBaracusApplicationContext.ApplicationContext.OnActivityCreated | src/main/java/net/mantucon/baracus/context/BaracusApplicationContext.java:134-145 | the activity is recorded as existing, the context is initialised on demand, and the activity is injected, failing exactly when it is not injectable |
| NetBaracusApplicationContext.ApplicationContext.InitialiseOnDemand | src/main/java/net/mantucon/baracus/context/BaracusApplicationContext.java:137-139 | an initialised context is left exactly as it was |
| NetBaracusApplicationContext.ApplicationContext.OnActivityStarted | src/main/java/net/mantucon/baracus/context/BaracusApplicationContext.java:148-151 | the activity becomes the active one of its class |
| NetBaracusApplicationContext.ApplicationContext.OnActivityResumed | src/main/java/net/mantucon/baracus/context/BaracusApplicationContext.java:154-157 | the activity's class leaves the paused activities |
| NetBaracusApplicationContext.ApplicationContext.OnActivityPaused | src/main/java/net/mantucon/baracus/context/BaracusApplicationContext.java:160-163 | the activity becomes the paused one of its class |
| NetBaracusApplicationContext.ApplicationContext.OnActivityStopped | src/main/java/net/mantucon/baracus/context/BaracusApplicationContext.java:166-170 | the activity's class leaves the active activities and the activity's bean references are outjected |
| NetBaracusApplicationContext.ApplicationContext.OnActivityDestroyed | src/main/java/net/mantucon/baracus/context/BaracusApplicationContext.java:180-183 | the activity's class leaves the existing activities |
| NetBaracusApplicationContext.ApplicationContext.ResolveString | src/main/java/net/mantucon/baracus/context/BaracusApplicationContext.java:212-225 | without an instance the call fails; an unknown id throws Resources.NotFoundException; otherwise the resource text with $1..$n replaced by the arguments in turn |
| NetBaracusApplicationContext.ApplicationContext.ConnectOpenHelper | src/main/java/net/mantucon/baracus/context/BaracusApplicationContext.java:336-348 | a cached helper is returned; otherwise the scan finds a held BaracusOpenHelper bean, a null bean throws NullPointerException and none throws ContextNotYetCreatedException |
| NetBaracusApplicationContext.ApplicationContext.ConnectDbHandle | src/main/java/net/mantucon/baracus/context/BaracusApplicationContext.java:324-331 | the cached database, or the helper's writable database, which is then cached; fails exactly when no helper can be found |
| NetBaracusApplicationContext.ApplicationContext.GetBean | src/main/java/net/mantucon/baracus/context/BaracusApplicationContext.java:354-356 | the instance held for exactly that class, never an activity |
| NetBaracusApplicationContext.ApplicationContext.RegisterDeleteListener | src/main/java/net/mantucon/baracus/context/BaracusApplicationContext.java:259-262 | the listener replaces any earlier one of the class |
| NetBaracusApplicationContext.ApplicationContext.EmitDeleteEvent | src/main/java/net/mantucon/baracus/context/BaracusApplicationContext.java:268-278 | onDelete is called on the class's listener if there is one, and a listener that throws is removed |
| NetBaracusApplicationContext.ApplicationContext.RegisterSetChangeListener | src/main/java/net/mantucon/baracus/context/BaracusApplicationContext.java:286-289 | the listener replaces any earlier one of the class |
| NetBaracusApplicationContext.ApplicationContext.EmitSetChangeEvent | src/main/java/net/mantucon/baracus/context/BaracusApplicationContext.java:295-305 | onChange is called on the class's listener if there is one, and a listener that throws is removed |
| NetBaracusApplicationContext.ApplicationContext.UnregisterCallbacks | src/main/java/net/mantucon/baracus/context/BaracusApplicationContext.java:239 | the current callback object is unregistered once, leaving earlier registrations in place |
| NetBaracusApplicationContext.ApplicationContext.ReleaseAfterShutdown | src/main/java/net/mantucon/baracus/context/BaracusApplicationContext.java:239-246 | callbacks unregistered, database closed, listeners cleared, context marked uninitialised; fails without an instance or when the database cannot be reached, then leaving listeners and initialisation as they were |
| NetBaracusApplicationContext.ApplicationContext.Destroy | src/main/java/net/mantucon/baracus/context/BaracusApplicationContext.java:233-249 | the count always drops by one; unless it reaches zero or force is set nothing else changes; otherwise the container is shut down, every bean outjected and released, and the context released |
| NetBaracusApplicationContext.ApplicationContext.ShutdownBlocksHelper | src/main/java/net/mantucon/baracus/context/BaracusApplicationContext.java:241 | once every bean is released the database can only be reached through an already cached handle or helper |
| NetBaracusApplicationContext.ApplicationContext.BuildAndMark | src/main/java/net/mantucon/baracus/context/BaracusApplicationContext.java:119-128 | the first initialisation: init is set exactly when the build succeeds, and a successful build keeps the key set, fills every slot, keeps filled ones, injects the instances and ends the log with their postConstruct calls |
| OrgBaracusApplicationContext.ApplicationContext.constructor | src/main/java/org/baracus/context/BaracusApplicationContext.java:85-110 | before construction the context is uninitialised, unlocked, with no callbacks, listeners, factories or initializer, and the container holds the ConfigurationDao, ValidationFactory and ErrorHandlingFactory classes, unbuilt |
| OrgBaracusApplicationContext.ApplicationContext.Construct | src/main/java/org/baracus/context/BaracusApplicationContext.java:115-121 | a second application instance throws ContainerAlreadyStartedException and changes nothing; the first sets the instance and runs make |
| OrgBaracusApplicationContext.ApplicationContext.Make | src/main/java/org/baracus/context/BaracusApplicationContext.java:175-239 | while the semaphore is set nothing is registered and only the count grows; otherwise a fresh callback object is registered (NullPointerException without an instance, leaving the semaphore set); the semaphore ends cleared after a normal return |
| OrgBaracusApplicationContext.ApplicationContext.FinishInit | src/main/java/org/baracus/context/BaracusApplicationContext.java:154-160 | the factory references are taken from the container's beans; an initializer, when set, is injected and then receives afterContextIsBuilt, failing exactly when it is not injectable |
| OrgBaracusApplicationContext.ApplicationContext.CreateAll | src/main/java/org/baracus/context/BaracusApplicationContext.java:148 | the corrected createInstances fills every slot without replacing a filled one; only bound implementations can be added as keys |
| OrgBaracusApplicationContext.ApplicationContext.WireContainer | src/main/java/org/baracus/context/BaracusApplicationContext.java:149-151 | injections, post-construction once per distinct instance and UI treatment on the created beans, as BuiltFrom states |
| OrgBaracusApplicationContext.ApplicationContext.BuildContainer | src/main/java/org/baracus/context/BaracusApplicationContext.java:146-151 | on success the container is Initialised: every slot filled, nothing replaced, beans injected, postConstruct called once per distinct instance |
| OrgBaracusApplicationContext.ApplicationContext.InitApplicationContext | src/main/java/org/baracus/context/BaracusApplicationContext.java:146-164 | a second call does nothing; a first call builds the container, runs the initializer and is marked initialised exactly when nothing threw |
| OrgBaracusApplicationContext.ApplicationContext.FinishInitKeeping | src/main/java/org/baracus/context/BaracusApplicationContext.java:152-160 | finishing after a successful build keeps the container Initialised, adding the initializer's injection and afterContextIsBuilt call |
| OrgBaracusApplicationContext.ApplicationContext.ReinitializeContext | src/main/java/org/baracus/context/BaracusApplicationContext.java:170-173 | the context is rebuilt whatever its state, marked initialised exactly when nothing threw, and the factory references follow the rebuilt beans |
| OrgBaracusApplicationContext.ApplicationContext.OnActivityCreated | src/main/java/org/baracus/context/BaracusApplicationContext.java:180-190 | the activity is recorded as existing, the context is initialised on demand, and the activity is injected, failing exactly when it is not injectable |
| OrgBaracusApplicationContext.ApplicationContext.InitialiseOnDemand | src/main/java/org/baracus/context/BaracusApplicationContext.java:184-186 | an initialised context is left exactly as it was |
| OrgBaracusApplicationContext.ApplicationContext.OnActivityStarted | src/main/java/org/baracus/context/BaracusApplicationContext.java:193-196 | the activity becomes the active one of its class |
| OrgBaracusApplicationContext.ApplicationContext.OnActivityResumed | src/main/java/org/baracus/context/BaracusApplicationContext.java:199-203 | the activity's class leaves the paused activities and the activity is injected again, failing exactly when it is not injectable |
| OrgBaracusApplicationContext.ApplicationContext.OnActivityPaused | src/main/java/org/baracus/context/BaracusApplicationContext.java:206-209 | the activity becomes the paused one of its class |
| OrgBaracusApplicationContext.ApplicationContext.OnActivityStopped | src/main/java/org/baracus/context/BaracusApplicationContext.java:212-216 | the activity's class leaves the active activities and the activity's bean references are outjected |
| OrgBaracusApplicationContext.ApplicationContext.OnActivityDestroyed | src/main/java/org/baracus/context/BaracusApplicationContext.java:226-229 | the activity's class leaves the existing activities |
| OrgBaracusApplicationContext.ApplicationContext.ResolveString | src/main/java/org/baracus/context/BaracusApplicationContext.java:288-301 | without an instance the call fails; an unknown id throws Resources.NotFoundException; otherwise the resource text with $1..$n replaced by the arguments in turn |
| OrgBaracusApplicationContext.ApplicationContext.ResolveStringWith | src/main/java/org/baracus/context/BaracusApplicationContext.java:312-316 | the single-argument form replaces $1 by the argument |
| OrgBaracusApplicationContext.ApplicationContext.ConnectOpenHelper | src/main/java/org/baracus/context/BaracusApplicationContext.java:551-563 | a cached helper is returned; otherwise the scan finds a held BaracusOpenHelper bean, a null bean throws NullPointerException and none throws ContextNotYetCreatedException |
| OrgBaracusApplicationContext.ApplicationContext.ConnectDbHandle | src/main/java/org/baracus/context/BaracusApplicationContext.java:539-546 | the cached database, or the helper's writable database, which is then cached; fails exactly when no helper can be found |
| OrgBaracusApplicationContext.ApplicationContext.GetBean | src/main/java/org/baracus/context/BaracusApplicationContext.java:739-741 | the held bean, else the active activity of exactly that class, else null |
| OrgBaracusApplicationContext.ApplicationContext.PerformInjectionsOn | src/main/java/org/baracus/context/BaracusApplicationContext.java:748-752 | while the semaphore is set nothing happens; otherwise the object is injected (NullPointerException for null), failing exactly when it is not injectable |
| OrgBaracusApplicationContext.ApplicationContext.CreatePrototypeBean | src/main/java/org/baracus/context/BaracusApplicationContext.java:762-771 | a fresh, unheld instance of the class is built, injected and post-constructed, the bean registry untouched; every failure is wrapped in IntantiationException |
| OrgBaracusApplicationContext.ApplicationContext.SetApplicationContextInitializer | src/main/java/org/baracus/context/BaracusApplicationContext.java:797-799 | the initializer is replaced |
| OrgBaracusApplicationContext.ApplicationContext.GetBeansOfType | src/main/java/org/baracus/context/BaracusApplicationContext.java:808-816 | every held instance assignable to the type, and only those, at most one per slot; a null slot throws NullPointerException |
| OrgBaracusApplicationContext.ApplicationContext.RegisterDeleteListener | src/main/java/org/baracus/context/BaracusApplicationContext.java:355-358 | the listener replaces any earlier one of the class |
| OrgBaracusApplicationContext.ApplicationContext.EmitDeleteEvent | src/main/java/org/baracus/context/BaracusApplicationContext.java:365-375 | onDelete is called on the class's listener if there is one, and a listener that throws is removed |
| OrgBaracusApplicationContext.ApplicationContext.RegisterSetChangeListener | src/main/java/org/baracus/context/BaracusApplicationContext.java:384-387 | the listener replaces any earlier one of the class |
| OrgBaracusApplicationContext.ApplicationContext.EmitSetChangeEvent | src/main/java/org/baracus/context/BaracusApplicationContext.java:394-404 | onChange(clazz) is called on the class's listener if there is one, and a listener that throws is removed |
| OrgBaracusApplicationContext.ApplicationContext.RegisterDataChangeListener | src/main/java/org/baracus/context/BaracusApplicationContext.java:414-422 | the listener joins the set of the class, created when absent |
| OrgBaracusApplicationContext.ApplicationContext.UnregisterDataChangeListener | src/main/java/org/baracus/context/BaracusApplicationContext.java:429-435 | the listener leaves every class's set |
| OrgBaracusApplicationContext.ApplicationContext.EmitDataChangeEvent | src/main/java/org/baracus/context/BaracusApplicationContext.java:442-459 | with the loop corrected (the as-written loop is ListenerTables.EmitAsWritten), every listener of the item's class gets onChange(item) once and the throwers leave the set; a null item or a class without listeners changes nothing |
| OrgBaracusApplicationContext.ApplicationContext.RegisterGenericListener | src/main/java/org/baracus/context/BaracusApplicationContext.java:467-475 | the handler joins the set of the event class, created when absent |
| OrgBaracusApplicationContext.ApplicationContext.FreeGenericListeners | src/main/java/org/baracus/context/BaracusApplicationContext.java:482-487 | the event class's set is emptied |
| OrgBaracusApplicationContext.ApplicationContext.FreeDataChangeListeners | src/main/java/org/baracus/context/BaracusApplicationContext.java:494-499 | the model class's set is emptied |
| OrgBaracusApplicationContext.ApplicationContext.EmitGenericEvent | src/main/java/org/baracus/context/BaracusApplicationContext.java:507-519 | a null event throws NullPointerException; otherwise, with the loop corrected, every handler of the event's class gets handleEvent once and the throwers leave the set |
| OrgBaracusApplicationContext.ApplicationContext.UnregisterCallbacks | src/main/java/org/baracus/context/BaracusApplicationContext.java:330 | the current callback object is unregistered once, leaving earlier registrations in place |
| OrgBaracusApplicationContext.ApplicationContext.ReleaseAfterShutdown | src/main/java/org/baracus/context/BaracusApplicationContext.java:330-341 | callbacks unregistered, database closed, delete and set-change listeners, factories and flags cleared (data-change and generic listeners survive); fails without an instance or when the database cannot be reached, then leaving listeners and initialisation as they were |
| OrgBaracusApplicationContext.ApplicationContext.ClearStatics | src/main/java/org/baracus/context/BaracusApplicationContext.java:333-341 | delete and set-change listeners, database handle, factory references, semaphore and init flag are reset; data-change and generic listeners are kept |
| OrgBaracusApplicationContext.ApplicationContext.Destroy | src/main/java/org/baracus/context/BaracusApplicationContext.java:324-344 | the count always drops by one; unless it reaches zero or force is set nothing else changes; otherwise the container is shut down, every bean outjected and released, and the context released |
| OrgBaracusApplicationContext.ApplicationContext.ShutdownBlocksHelper | src/main/java/org/baracus/context/BaracusApplicationContext.java:332 | once every bean is released the database can only be reached through an already cached handle or helper |
| NetLogger.Logger.OfClass | src/main/java/net/mantucon/baracus/util/Logger.java:177-179 | a logger made for a class takes the class's simple name as its id and announces itself with one DEBUG call |
| ContainerCore.RulesOf | src/main/java/org/baracus/context/BeanContainer.java:146-153 | a Context field is injected only under the org policy and never into a ManagedActivity; the helper type is BaracusOpenHelper in both trees |
| ContainerCore.PutActivity | src/main/java/net/mantucon/baracus/context/BeanContainer.java:356-368 | recording an activity puts it under its own class, replacing an earlier one, and leaves every other class's entry alone |
| ContainerCore.DropActivity | src/main/java/net/mantucon/baracus/context/BeanContainer.java:370-382 | removing an activity drops its class's entry and leaves every other class's entry alone |
| ContainerCore.DropAfterPut | src/main/java/net/mantucon/baracus/context/BeanContainer.java:356-382 | removing an activity just recorded leaves the table as removing it from the original would |
| ContainerCore.PutTwice | src/main/java/net/mantucon/baracus/context/BeanContainer.java:356-368 | recording the same activity twice is recording it once |
| BeanInjection.PlainFieldGetsBean | src/main/java/net/mantucon/baracus/context/BeanContainer.java:143-151 | a field of a registered class's type ends holding that class's bean (null included); a field of an unregistered ordinary type is left alone |
| BeanInjection.EmptyRegistryInjectsNothing | src/main/java/net/mantucon/baracus/context/BeanContainer.java:142-143 | with no registered classes the candidate loop never runs, so no field changes, not even a database or helper field |
| BeanInjection.OrderDecidesOnlyForInfrastructure | src/main/java/net/mantucon/baracus/context/BeanContainer.java:142-169 | when a registered class's type is also a database or helper type, the field ends holding either the bean or the handle, depending on iteration order |
| BeanInjection.HookCallsExactly | src/main/java/net/mantucon/baracus/context/BeanContainer.java:107-114 | the hook is called on exactly the held objects implementing its interface, with the hook's name and no arguments |
| BeanInjection.HookCallsDistinct | src/main/java/org/baracus/context/BeanContainer.java:77-81 | distinct instances get the hook at most once each |
| BeanInjection.SlotsAt | src/main/java/net/mantucon/baracus/context/BeanContainer.java:108 | the instances visited are the registry slots in the order of the keys |
| BeanInjection.Infrastructure.constructor | src/main/java/net/mantucon/baracus/context/BaracusApplicationContext.java:78-79 | no database handle and no helper are cached at start |
| BeanInjection.Infrastructure.ConnectOpenHelper | src/main/java/net/mantucon/baracus/context/BaracusApplicationContext.java:336-348 | a cached helper is returned unchanged; otherwise the held beans are scanned: a null one throws NullPointerException, a BaracusOpenHelper is cached and returned, none throws ContextNotYetCreatedException |
| BeanInjection.Infrastructure.ConnectDbHandle | src/main/java/net/mantucon/baracus/context/BaracusApplicationContext.java:324-331 | a cached handle is returned unchanged; otherwise the helper's writable database is cached and returned exactly when a helper is reachable, and nothing is cached on failure |
| JavaReflection.DeclaredFields | src/main/java/net/mantucon/baracus/context/BeanContainer.java:178-190 | the fields declared by a class all belong to that class |
| JavaReflection.OwnFieldsFirst | src/main/java/net/mantucon/baracus/context/BeanContainer.java:178-190 | getAllDeclaredFields lists the class's own fields first |
| JavaReflection.SuperclassFieldsIncluded | src/main/java/net/mantucon/baracus/context/BeanContainer.java:182-187 | every field of a superclass's lineage is in the subclass's lineage |
| JavaReflection.Outjected | src/main/java/net/mantucon/baracus/context/BeanContainer.java:218-234 | outjection nulls exactly the listed fields typed by a registered class and leaves every other field as it was |
| JavaReflection.OutjectedIdempotent | src/main/java/net/mantucon/baracus/context/BeanContainer.java:218-234 | outjecting twice is outjecting once |
| JavaReflection.Heap.constructor | src/main/java/org/baracus/context/BeanContainer.java:262-281 | the heap starts with no objects and an empty call log |
| JavaReflection.Heap.New | src/main/java/org/baracus/context/BeanContainer.java:269-272 | a constructor call yields a fresh object of the class with no field set, and is logged |
| JavaReflection.Heap.SetField | src/main/java/net/mantucon/baracus/context/BeanContainer.java:148 | Field.set changes exactly one field of one object |
| JavaReflection.Heap.Invoke | src/main/java/net/mantucon/baracus/context/BeanContainer.java:110 | a call on an object is appended to the log |
| JavaReflection.FirstUsable | src/main/java/org/baracus/context/BeanContainer.java:265-275 | the constructor chosen is the first one that takes no parameters or only a Context; none when there is no such constructor |
| JavaReflection.ChooseConstructor | src/main/java/org/baracus/context/BeanContainer.java:265-275 | the constructor loop breaks at exactly the first usable constructor, finding none exactly when there is none |
| JavaReflection.FirstUsableAt | src/main/java/org/baracus/context/BeanContainer.java:265-275 | a usable constructor preceded only by unusable ones is the one chosen |
| JavaReflection.GetAllDeclaredFields | src/main/java/net/mantucon/baracus/context/BeanContainer.java:178-190 | the loop up the superclass chain collects exactly the lineage's declared fields |
| AndroidDatabase.LikeMatchesItself | src/main/java/net/mantucon/baracus/dao/BaseDao.java:550-553 | a wildcard-free value matches itself under LIKE, so queryByExample with wildcards still finds exact values |
| AndroidDatabase.LikeAnything | src/main/java/net/mantucon/baracus/dao/BaseDao.java:550-553 | the pattern "%" matches every value |
| AndroidDatabase.Deleted | src/main/java/net/mantucon/baracus/dao/BaseDao.java:151-155 | a delete removes exactly the matching rows and keeps the others unchanged; with no criteria it empties the table |
| AndroidDatabase.Updated | src/main/java/net/mantucon/baracus/dao/BaseDao.java:375-398 | an update rewrites the given columns of exactly the matching rows and keeps every other row and the key column |
| AndroidDatabase.Inserted | src/main/java/net/mantucon/baracus/dao/BaseDao.java:364-374 | an insert stores the row under a fresh row id, the next one when no key is given; -1 means nothing was stored |
| AndroidDatabase.Marked | src/main/java/net/mantucon/baracus/dao/BaseDao.java:312-315 | marking the innermost transaction successful changes only that level |
| AndroidDatabase.LevelsAfterEnd | src/main/java/net/mantucon/baracus/dao/BaseDao.java:312-319 | ending a transaction pops one level |
| AndroidDatabase.AfterEndRules | src/main/java/net/mantucon/baracus/dao/BaseDao.java:312-319 | ending an inner level keeps the tables and fails the parent when it was not marked; ending the outermost commits when it was marked and no child failed, else rolls back |
| AndroidDatabase.FailedChildForcesRollback | src/main/java/net/mantucon/baracus/dao/BaseDao.java:399-406 | an inner transaction ended unmarked makes the outer one roll back even when it is then marked successful |
| AndroidDatabase.CommitKeepsTables | src/main/java/net/mantucon/baracus/dao/BaseDao.java:312-315 | commit after all children succeeded keeps the tables and pops the level |
| AndroidDatabase.Database.constructor | src/main/java/net/mantucon/baracus/dao/BaseDao.java:127-129 | a database with the given tables and no open transaction |
| AndroidDatabase.Database.BeginTransaction | src/main/java/net/mantucon/baracus/dao/BaseDao.java:328-331 | a new unmarked level is pushed; the outermost one snapshots the tables |
| AndroidDatabase.Database.SetTransactionSuccessful | src/main/java/net/mantucon/baracus/dao/BaseDao.java:313 | the innermost level is marked |
| AndroidDatabase.Database.EndTransaction | src/main/java/net/mantucon/baracus/dao/BaseDao.java:314-318 | the level is popped and the tables become TablesAfterEnd |
| AndroidDatabase.Database.Insert | src/main/java/net/mantucon/baracus/dao/BaseDao.java:371 | the table becomes Inserted and the key is the new row id |
| AndroidDatabase.Database.Update | src/main/java/net/mantucon/baracus/dao/BaseDao.java:396 | the table becomes Updated and the count is the number of matching rows |
| AndroidDatabase.Database.Delete | src/main/java/net/mantucon/baracus/dao/BaseDao.java:153 | the table becomes Deleted and the count is the number of matching rows |
| AndroidDatabase.Database.Query | src/main/java/net/mantucon/baracus/dao/BaseDao.java:257 | a DISTINCT query returns each matching row exactly once, in some order; with no criteria every row of the table |
| AndroidDatabase.DeletedLeavesNoMatch | src/main/java/net/mantucon/baracus/dao/BaseDao.java:434-438 | after a delete no row matches the criteria, and the removed and kept rows add up to the table |
| AndroidDatabase.Cursor.constructor | src/main/java/net/mantucon/baracus/dao/BaseDao.java:446-453 | a cursor starts before the first row |
| AndroidDatabase.Cursor.MoveToNext | src/main/java/net/mantucon/baracus/dao/BaseDao.java:449 | moveToNext advances exactly while a row remains and otherwise ends after the last row |
| JavaUtil.IndexOf | src/main/java/net/mantucon/baracus/orm/LazyCollection.java:159-162 | indexOf is the first position of the element, -1 exactly when absent |
| JavaUtil.LastIndexOf | src/main/java/net/mantucon/baracus/orm/LazyCollection.java:84-87 | lastIndexOf is the last position of the element, -1 exactly when absent |
| JavaUtil.RemoveFirstCount | src/main/java/org/baracus/context/BaracusApplicationContext.java:330 | removing an element present removes one occurrence; an absent one leaves the list unchanged |
| JavaUtil.RemoveRetainPartition | src/main/java/net/mantucon/baracus/orm/LazyCollection.java:149-177 | removeAll keeps exactly the elements not in the collection, retainAll exactly those in it, and together they account for every element |
| JavaUtil.InsertAt | src/main/java/net/mantucon/baracus/orm/LazyCollection.java:109-112 | inserting at an index keeps the prefix, places the new elements, then the rest |
| JavaLang.Wrap32 | src/main/java/net/mantucon/baracus/model/ConfigurationParameter.java:79-84 | Java int arithmetic: the result is a 32-bit int congruent to the exact value modulo 2^32, and an in-range value is kept |
| JavaLang.StringHash | src/main/java/net/mantucon/baracus/orm/Field.java:84-88 | String.hashCode: always a 32-bit int, and the empty string hashes to 0 |
| JavaLang.LongHash | src/main/java/net/mantucon/baracus/orm/AbstractModelBase.java:146-150 | Long.hashCode of the id: always a 32-bit int |
| JavaLang.Split | src/main/java/net/mantucon/baracus/util/StringUtil.java:120 | String.split on a single-character delimiter: no piece contains the delimiter, and text without the delimiter is one piece |
| JavaLang.TrimLeadingSpec | src/main/java/net/mantucon/baracus/util/StringUtil.java:40-42 | the leading part trim() removes is exactly the maximal prefix of characters at most a space; what remains is a suffix of the input |
| JavaLang.TrimTrailingSpec | src/main/java/net/mantucon/baracus/util/StringUtil.java:40-42 | the trailing part trim() removes is exactly the maximal suffix of characters at most a space; what remains is a prefix of the input |
| JavaLang.IntToString | src/main/java/net/mantucon/baracus/util/Logger.java:167 | String.valueOf of an int is never empty |

## Left out

- NetBeanContainer.BeanContainer.TreatKnownUiComponents: runs the corrected fragment loop `InjectFragments`. The source removes from `knownFragments` while iterating it (net BeanContainer.java:390-395), which throws ConcurrentModificationException. The as-written loop is `InjectFragmentsAsWritten` (see Findings).
- OrgBeanContainer.BeanContainer.TreatKnownUiComponents: same as the net tree. The source removes inside the for-each at org BeanContainer.java:450-455, and the model uses the corrected `InjectFragments`.
- ListenerTables.EmitAll: the corrected emission loop. It removes throwers after the walk, not during it. The org context's `EmitDataChangeEvent` and `EmitGenericEvent` use it. The as-written loop is `ListenerTables.EmitAsWritten` (see Findings).
- NetBeanContainer.BeanContainer.InjectField: an `IllegalAccessException` turned into `InjectionException` (net BeanContainer.java:150-168) is not modelled. The model's field table makes every field writable.
- OrgBeanContainer.BeanContainer.InjectField: as in the net tree, `IllegalAccessException` (org BeanContainer.java:127-151) is not modelled.
- NetBeanContainer.BeanContainer.OutjectField: `BeanDestructionException` on a failed field write (net BeanContainer.java:228-229) is not modelled, for the same reason.
- OrgBeanContainer.BeanContainer.OutjectField: as in the net tree, `BeanDestructionException` (org BeanContainer.java:214-215) is not modelled.
- The `System.gc()` hints are left out: net BaracusApplicationContext.java:247, net BeanContainer.java:320, org BaracusApplicationContext.java:342 and org BeanContainer.java:376. They have no observable effect on the modelled state.
- Logging calls throughout the container, the contexts and the DAO are left out. They only write to log sinks. The Logger classes themselves are modelled.
- JavaLang.ParseInt: accepts only ASCII digits. `Integer.parseInt` (StringIsNumericInteger.java:33) also accepts other Unicode decimal digits, so the model rejects strings such as Arabic-Indic numerals that Java accepts.
- NetStringUtil.FirstByteToLower: lowers with `JavaLang.ToLowerAscii`. `Character.toLowerCase` (StringUtil.java:20) also maps non-ASCII letters, and the model does not.
- NetStringUtil.SplitPurified: takes the delimiter as one character. The source passes a regular expression to `String.split`. Its only caller splits on ",", for which the two agree.
- OrgBaracusOpenHelper.BaracusOpenHelper.constructor: the static `upgradeSteps` map is an instance field. Each helper object owns the map its static initialiser would have filled.
- NetValidationFactory.ValidationFactory.constructor: the static validator registry is an instance field of the factory.
- OrgBaracusOpenHelper.BaracusOpenHelper.OnUpgrade: runs its loop on unbounded integers. The source's `int` counter wraps at `Integer.MAX_VALUE`, so that loop never ends (see Findings).
- NetAbstractModelBase.AbstractModelBase.constructor: takes an `isOldStyle` flag. The net AbstractModelBase.java:98-100 constructor takes only a table name, yet ModelBase and LegacyModelBase call `super(table, flag)`. The flag is added so that those calls resolve.
- NetAbstractModelBase.StaticFieldList, NetModelBase.StaticInit and NetLegacyModelBase.StaticFieldList: build the net tree's static field lists with the org `FieldList` model. net/mantucon/baracus/orm/FieldList.java is not part of this model, so the locking and sorting behaviour these rows state is the org FieldList's.
- OrgFieldList.FieldList.Add: uses the net Field model. org/baracus/orm/Field.java is not part of this model, and the org FieldList uses only the name, index and key-column flag that the net Field has too.
- NetErrorHandlingFactory.ErrorHandlingFactory.AddErrorToView: a message is kept as a resource name, and views are keyed by value. Resource lookup and view identity are Android runtime behaviour.
- NetErrorHandlingFactory.ErrorHandlingFactory.ResetErrors: models only the map effect. The widget calls and the NullPointerException on a null `findViewById` result are left out.
- `applyErrorsOnView` (ErrorHandlingFactory.java:78-128) is left out. It renders errors into widgets and does not change the factory's state.
- `getRegisteredHandlers` and `getStandardHandlers` (ErrorHandlingFactory.java:218-227) are left out. They are plain getters of fields the model exposes.
- `registerValidationListener` (ValidationFactory.java:163-200) is left out. It attaches Android focus and text listeners.
- `InvalidValidatorNameException.getMessage` (ValidationFactory.java:47-49) is left out. It only formats a message.
- Floating point is left out: `getDouble`, StringIsNumericDouble, NumberMustBeGreaterThanZero and the `Double` fallbacks.
- Calendar arithmetic and locale formatting are left out:
  - `formatDate`;
  - `getAllItemsModifiedAfter`;
  - DayDate and DateFromNow;
  - the calendar code of both DateUtil files, such as org `addDay` and its relatives (DateUtil.java:94-173) and net `addOneYear` and `today`.
  `DateUtil` takes the formatter and parser as parameters.
- org ReferenceLoader.java is not part of this model. The net ReferenceLoader only forwards to `BaseDao.getById`, which is modelled.
- NetLazyCollection.LazyCollection.SubList and NetLazyMorphicCollection.LazyMorphicCollection.SubList: return a copy of the elements. The source's `subList` returns a view that writes through to the backing list (LazyCollection.java:74-77, LazyMorphicCollection.java:66-69), and the model has no views.
- The delegating methods of the org context are left out. Each forwards to a modelled member with no logic of its own:
  - `registerBeanClass` and `reRegisterBeanClass` (BaracusApplicationContext.java:248-278);
  - the validation and error-handling delegates (571-720);
  - `getResource` (780-788);
  - `getContext` and `getDatabasePath` (525-534);
  - `getInstance` (730-732).
- The delegating methods of the net context are left out for the same reason: `registerBeanClass` (BaracusApplicationContext.java:201-203), `getContext` and `getDatabasePath` (310-319), and `getInstance` (350-352).
- `BaracusOpenHelper.getDatabaseName` (179-181) is a getter of a constructor argument and has no contract worth stating.
- The activity callback `onActivitySaveInstanceState` does nothing in either tree.
- Concurrency is left out: `synchronized`, `volatile` and the locking in LazyCollection and LazyReference. The model is single-threaded.
- AnnotationScanner (dex scanning), DBBackup (file channels), the Android log sinks and the UI widgets (ErrorView, Popup, ConstrainedSpinner, ConstrainedEditText, ManagedActivity, ManagedFragment, TextEditErrorHandler) are left out. They are I/O or rendering with no state of the core.
- ModelVersion000 is an abstract migration step. Its DDL text is passed to the database unread.
- org/baracus/model/ConfigurationParameter.java is not part of this model. Its superclass org LegacyModelBase is not part of the repository, so its equality and column indices cannot be stated.

## Findings

Each row pairs a member that models the code as written with a corrected member. The container's creation and fragment loops, the listener emission loop and the migration loop use the corrected half. Where the source's own callers observe the quirk, the model's callers keep the as-written half: `GetByField` goes through `QueryAsWritten`, and `LoggingConfiguration.IsLoggable` through `DeterminePackageFromConfig`.

| source | as written | input that shows it | evidently intended | confidence | as-written member | corrected member |
|---|---|---|---|---|---|---|
| src/main/java/net/mantucon/baracus/context/BeanContainer.java:390-395 | a fragment that cannot be injected is removed from `knownFragments` inside the for-each over that set | two known fragments, neither injectable: the removal of the first makes the iterator's next step throw ConcurrentModificationException | visit every fragment, then drop the failing ones | not executed | NetBeanContainer.BeanContainer.InjectFragmentsAsWritten | NetBeanContainer.BeanContainer.InjectFragments |
| src/main/java/org/baracus/context/BeanContainer.java:58-70 | the for-each runs over `clazzMap.keySet()` while `instantiateSingletonBean` calls `holdBean` (:236-241), which puts a bound implementation that has no slot into `clazzMap` | `registerBeanClass(Service, Impl)`, `registerBeanClass(Repository, Impl)`, then a rejected `replaceBeanClass(Impl, Other)`, which unregisters `Impl` (:360-362) and keeps both bindings: `createInstances` throws ConcurrentModificationException on its second pass | instantiate over a snapshot of the keys | not executed | OrgBeanContainer.BeanContainer.CreateInstancesAsWritten | OrgBeanContainer.BeanContainer.CreateInstances |
| src/main/java/org/baracus/context/BeanContainer.java:450-455 | the same in-loop removal from `knownFragments` | two known fragments, neither injectable | visit every fragment, then drop the failing ones | not executed | OrgBeanContainer.BeanContainer.InjectFragmentsAsWritten | OrgBeanContainer.BeanContainer.InjectFragments |
| src/main/java/org/baracus/context/BaracusApplicationContext.java:442-459 | a listener that throws is removed from the listener set inside the for-each over it | two registered listeners that both throw: after the first removal the iterator throws ConcurrentModificationException, and the second is never called | call every listener once, then drop the throwers | not executed | ListenerTables.EmitAsWritten | ListenerTables.EmitAll |
| src/main/java/net/mantucon/baracus/dao/BaseDao.java:250-269 | `query` calls `moveToNext` (:258) and `iterateCursor` calls it again (:449) before mapping a row | a table with exactly one matching row: `getByField` returns an empty list | map every matching row | not executed | NetBaseDao.BaseDao.QueryAsWritten | NetBaseDao.BaseDao.Query |
| src/main/java/net/mantucon/baracus/orm/LegacyModelBase.java:34-52 | `equals` tests `instanceof ModelBase`, so it is false for every other legacy bean and only identity is left | two LegacyModelBase beans with the same id and table name are unequal but hash alike | compare id and table name of another LegacyModelBase | not executed | NetLegacyModelBase.LegacyEqualsIsIdentity | NetLegacyModelBase.LegacyEqualsIntendedIsContent |
| src/main/java/net/mantucon/baracus/model/ConfigurationParameter.java:54-76 | `equals` first calls the legacy `equals` above, so content is never compared | two configuration parameters with the same id, table, name and value are unequal | equal on id, table, name and value, agreeing with `hashCode` | not executed | NetConfigurationParameter.EqualsIsIdentity | NetConfigurationParameter.EqualsIntendedIsContent |
| src/main/java/net/mantucon/baracus/util/StringUtil.java:102-109 | `join` cuts the first character of the builder instead of the trailing separator | ["ab", "cd"] joins to "b, cd"; the empty list throws | the elements separated by ", " | not executed | NetStringUtil.JoinDropsFirstCharacter | NetStringUtil.JoinCorrected |
| src/main/java/org/baracus/dao/BaracusOpenHelper.java:157-167 | the loop counter is an `int` compared with `i <= newVersion` | newVersion = Integer.MAX_VALUE: `++i` wraps to Integer.MIN_VALUE and the loop never ends | stop after the step bound to newVersion | not executed | OrgBaracusOpenHelper.UpgradeToMaxNeverEnds | OrgBaracusOpenHelper.BaracusOpenHelper.OnUpgrade |
| src/main/java/org/baracus/util/LoggingConfiguration.java:46-60 | the precision is `packageName.split(".").length`, a regular expression matching every character, and `bestMatchPrecision` is never raised | "org" configured at WARN and the default at ERROR: `org.baracus.util` is cached at ERROR, although the doc comment (:35-40) promises the closest configured parent package | count the pieces of `split("\\.")`, keep the largest precision seen, and cache the level of that closest parent | not executed | OrgLoggingConfiguration.ParentPackageIgnored | OrgLoggingConfiguration.LoggingConfiguration.DeterminePackageIntended |
