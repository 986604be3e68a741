# jackson-jr bean introspection and bean reading, modelled in Dafny

This project models two parts of jackson-jr.

The annotation-based introspector builds a POJO definition for a class.
It scans the declared fields and the getter and setter methods, superclass first.
It files each member into a property builder keyed by its implied name.
`@JsonIgnore` and `@JsonProperty` markers decide whether an accessor is ignorable, implicit, visible or explicitly named.
A pruning pass then drops hidden builders and ignored builders without an explicit marker.
A builder with both an ignored and an explicit accessor only loses its ignored accessors.
Every other kept builder loses its non-visible accessors.
The pass renames builders without an ignore marker that claim an explicit name, merging them with any builder already under that name.
It also collects the names a reader should tolerate as ignorable.
The properties come out sorted by name.
For deserialization the introspector also picks the default, single-String and single-long constructors.

`BeanReader` turns JSON tokens into a bean.
An object start creates the instance with the default constructor.
The reader then dispatches each field name through a matcher built from the primary names plus their aliases.
At the first unknown name it switches to a recovery loop.
That loop skips unknown properties (or fails, under `FAIL_ON_UNKNOWN_BEAN_PROPERTY`, unless the name is ignorable) and looks names up by primary name only.
A JSON String, an integer or null at the top level goes to the single-String constructor, the single-long constructor or yields null.
`ValueReader` supplies the default `readNext`, the value type and the token descriptions used in error messages.

Module layout:

- `Wrappers`: `Option` and `Result`.
- `StringOrder`: the `String.compareTo` order on UTF-16 code units, sorted listings of name sets, the quoted name list.
- `Tokens`: JSON tokens, a parser cursor over a finished token sequence, `skipChildren` and the field-name matcher's answer.
- `ValueReaders`: the reader contract for nested values, default `readNext`, `_tokenDesc`.
- `PropBuilders`: `APropAccessor` and `APropBuilder` as values, with `merge`, `withName`, `removeIgnored`, `removeNonVisible` and `findPrimaryExplicitName`.
- `MemberScan`: reflected fields, methods and constructors as input data, and what `_findFields`, `_findMethods`, `_checkGetterMethod` and `_checkSetterMethod` file for each member.
- `Pruning`: `_pruneReadProperties` as functions of the builder map and the order in which it is iterated.
- `Introspection`: the `Introspector` class whose methods and loops are proved to compute those functions.
- `BeanReading`: what `read`, `readNext`, `_readBean`, `_readWithUnknown` and `handleUnknown` compute, as functions of the reader's configuration and the token sequence.
- `BeanReaders`: the `BeanReader` class whose methods drive a `Parser` and are proved to compute those functions.

Two behaviours of the code that the model keeps as written:

- `_findFields` (AnnotationBasedIntrospector.java:155-160) says static fields are not included, but it only skips enum constants and synthetic fields. The model keeps static fields, as the code does.
- A builder whose only accessor is `@JsonIgnore`d has nothing visible. It is removed by the first test (AnnotationBasedIntrospector.java:97-100) before the ignoral branch, so its name is not made ignorable. `Pruning.LoneIgnoredMemberNotIgnorable` states this outcome.

## Model

| member | source | states |
|---|---|---|
| `StringOrder.LessIrreflexive` | jr-annotation-support/src/main/java/com/fasterxml/jackson/jr/annotationsupport/AnnotationBasedIntrospector.java:539-542 | no name sorts before itself in the name order |
| `StringOrder.LessAsymmetric` | jr-annotation-support/src/main/java/com/fasterxml/jackson/jr/annotationsupport/AnnotationBasedIntrospector.java:539-542 | of two names at most one sorts first |
| `StringOrder.LessTransitive` | jr-annotation-support/src/main/java/com/fasterxml/jackson/jr/annotationsupport/AnnotationBasedIntrospector.java:539-542 | the name order is transitive, so sorting by it is well defined |
| `StringOrder.LessTotal` | jr-annotation-support/src/main/java/com/fasterxml/jackson/jr/annotationsupport/AnnotationBasedIntrospector.java:539-542 | any two different names are ordered one way or the other |
| `StringOrder.LessIsCodeUnitOrder` | jr-annotation-support/src/main/java/com/fasterxml/jackson/jr/annotationsupport/AnnotationBasedIntrospector.java:539-542 | the char-wise name order is exactly the lexicographic order of the names' UTF-16 code units, a proper prefix first, which is what `String.compareTo` compares |
| `StringOrder.SupplementaryBeforeLateBmp` | jr-annotation-support/src/main/java/com/fasterxml/jackson/jr/annotationsupport/AnnotationBasedIntrospector.java:539-542 | a name made of U+1F600 (a surrogate pair) sorts before one made of U+FFFF, although its scalar value is larger |
| `StringOrder.BmpOrder` | jr-annotation-support/src/main/java/com/fasterxml/jackson/jr/annotationsupport/AnnotationBasedIntrospector.java:539-542 | for two characters below U+10000 the name order is their numeric order |
| `StringOrder.Insert` | jr-objects/src/main/java/com/fasterxml/jackson/jr/ob/impl/BeanReader.java:384 | inserting a new name into a strictly ascending list keeps it strictly ascending and adds exactly that name |
| `StringOrder.SortedEnumerationExists` | jr-annotation-support/src/main/java/com/fasterxml/jackson/jr/annotationsupport/AnnotationBasedIntrospector.java:143-145 | every finite set of names has a strictly ascending listing |
| `StringOrder.SortedEnumerationUnique` | jr-annotation-support/src/main/java/com/fasterxml/jackson/jr/annotationsupport/AnnotationBasedIntrospector.java:143-145 | two strictly ascending listings of the same names are the same list, so the sorted output does not depend on iteration order |
| `StringOrder.SortedEnumerationLength` | jr-objects/src/main/java/com/fasterxml/jackson/jr/ob/impl/BeanReader.java:384 | a strictly ascending listing of a set has one entry per member |
| `StringOrder.SortedNames` | jr-objects/src/main/java/com/fasterxml/jackson/jr/ob/impl/BeanReader.java:384 | the `TreeSet` view of a key set: strictly ascending, exactly the set's members, one entry each |
| `StringOrder.SortNames` | jr-objects/src/main/java/com/fasterxml/jackson/jr/ob/impl/BeanReader.java:384 | building the sorted view one insertion at a time yields exactly that listing |
| `StringOrder.QuotedList` | jr-objects/src/main/java/com/fasterxml/jackson/jr/ob/impl/BeanReader.java:383-390 | the known-properties list is empty exactly when there are no names; otherwise it starts with the first name quoted and ends with the last name quoted |
| `Tokens.Advance` | jr-objects/src/main/java/com/fasterxml/jackson/jr/ob/impl/BeanReader.java:173 | `nextToken` moves the cursor by one token and stays put once the input is exhausted |
| `Tokens.SkipEnd` | jr-objects/src/main/java/com/fasterxml/jackson/jr/ob/impl/BeanReader.java:396-397 | `skipChildren` leaves the cursor in place unless it is on an object or array start; from a start it ends on an end token where the nesting depth is back to zero, or on the end of input |
| `Tokens.ScanEndCloses` | jr-objects/src/main/java/com/fasterxml/jackson/jr/ob/impl/BeanReader.java:396-397 | the depth-counting scan stops at the first token where the running depth returns to zero |
| `Tokens.SkipEndOnValue` | jr-objects/src/main/java/com/fasterxml/jackson/jr/ob/impl/BeanReader.java:396-397 | on the first token of a complete JSON value, `skipChildren` ends on that value's last token: the matching end of an object or array, or the scalar itself |
| `Tokens.IndexOf` | jr-objects/src/main/java/com/fasterxml/jackson/jr/ob/impl/BeanReader.java:72-79 | a name's matcher slot is its position in the name list, and is -1 exactly for names not in it |
| `Tokens.MatchCode` | jr-objects/src/main/java/com/fasterxml/jackson/jr/ob/impl/BeanReader.java:208 | the matcher answers a slot exactly for listed field names, `MATCH_UNKNOWN_NAME` exactly for other field names, `MATCH_END_OBJECT` exactly for the end of the object |
| `Tokens.Parser.constructor` | jr-objects/src/main/java/com/fasterxml/jackson/jr/ob/impl/BeanReader.java:141 | a parser starts before the first token |
| `Tokens.Parser.NextToken` | jr-objects/src/main/java/com/fasterxml/jackson/jr/ob/impl/BeanReader.java:173 | advances one token and returns the new current token |
| `Tokens.Parser.NextFieldNameMatch` | jr-objects/src/main/java/com/fasterxml/jackson/jr/ob/impl/BeanReader.java:208 | advances one token and returns the matcher's answer for it |
| `Tokens.Parser.NextFieldName` | jr-objects/src/main/java/com/fasterxml/jackson/jr/ob/impl/BeanReader.java:342 | advances one token and returns the name exactly when it is a field name |
| `Tokens.Parser.SkipChildren` | jr-objects/src/main/java/com/fasterxml/jackson/jr/ob/impl/BeanReader.java:397 | the depth-counting loop ends where `SkipEnd` says |
| `ValueReaders.ValueReader.ReadAt` | jr-objects/src/main/java/com/fasterxml/jackson/jr/ob/api/ValueReader.java:36 | a nested read consumes exactly one JSON value, starting at the current token and ending on its last token |
| `ValueReaders.ReadsOneValue` | jr-objects/src/main/java/com/fasterxml/jackson/jr/ob/api/ValueReader.java:36 | a nested read on the first token of a complete JSON value returns that value and ends on its last token |
| `ValueReaders.ValueReader.Read` | jr-objects/src/main/java/com/fasterxml/jackson/jr/ob/api/ValueReader.java:36 | reading through the parser consumes the span `ReadAt` describes |
| `ValueReaders.ValueReader.ReadNext` | jr-objects/src/main/java/com/fasterxml/jackson/jr/ob/api/ValueReader.java:52-55 | the default `readNext` is one `nextToken` followed by `read` at the new position |
| `ValueReaders.TokenDescFallbacks` | jr-objects/src/main/java/com/fasterxml/jackson/jr/ob/api/ValueReader.java:84-106 | an absent token is described as `NULL`, integers and floats share one description, and tokens without a phrase are described by their enum name |
| `ValueReaders.TokenDesc` | jr-objects/src/main/java/com/fasterxml/jackson/jr/ob/api/ValueReader.java:83-107 | the description is `NULL` exactly for an absent token, and a field name is described with the name quoted |
| `ValueReaders.FieldNameDescInjective` | jr-objects/src/main/java/com/fasterxml/jackson/jr/ob/api/ValueReader.java:88-89 | two field-name descriptions are equal only for equal names |
| `ValueReaders.FieldNameDescDistinct` | jr-objects/src/main/java/com/fasterxml/jackson/jr/ob/api/ValueReader.java:83-107 | no other token is described like a field name |
| `PropBuilders.CreateIgnorable` | jr-annotation-support/src/main/java/com/fasterxml/jackson/jr/annotationsupport/AnnotationBasedIntrospector.java:565-568 | an ignorable accessor is marked ignore, neither visible nor explicit |
| `PropBuilders.CreateImplicit` | jr-annotation-support/src/main/java/com/fasterxml/jackson/jr/annotationsupport/AnnotationBasedIntrospector.java:571-575 | an implicit accessor is neither explicit nor ignored and has the visibility it was given |
| `PropBuilders.CreateVisible` | jr-annotation-support/src/main/java/com/fasterxml/jackson/jr/annotationsupport/AnnotationBasedIntrospector.java:578-581 | an accessor with an empty explicit name is explicit and visible but does not claim a name |
| `PropBuilders.CreateExplicit` | jr-annotation-support/src/main/java/com/fasterxml/jackson/jr/annotationsupport/AnnotationBasedIntrospector.java:584-587 | an accessor with a non-empty explicit name claims that name, is explicit and visible |
| `PropBuilders.MemberOf` | jr-annotation-support/src/main/java/com/fasterxml/jackson/jr/annotationsupport/AnnotationBasedIntrospector.java:421-427 | a property slot holds a member exactly when the builder's slot holds an accessor |
| `PropBuilders.PropBuilder.With` | jr-annotation-support/src/main/java/com/fasterxml/jackson/jr/annotationsupport/AnnotationBasedIntrospector.java:183 | assigning a slot sets that slot and leaves the name and the other slots |
| `PropBuilders.PropBuilder.RemoveIgnored` | jr-annotation-support/src/main/java/com/fasterxml/jackson/jr/annotationsupport/AnnotationBasedIntrospector.java:471-481 | clears exactly the slots whose accessor is marked ignore; nothing ignored remains |
| `PropBuilders.PropBuilder.RemoveNonVisible` | jr-annotation-support/src/main/java/com/fasterxml/jackson/jr/annotationsupport/AnnotationBasedIntrospector.java:483-493 | clears exactly the slots whose accessor is not visible |
| `PropBuilders.PropBuilder.AnyVisible` | jr-annotation-support/src/main/java/com/fasterxml/jackson/jr/annotationsupport/AnnotationBasedIntrospector.java:521-525 | true iff some present accessor is visible |
| `PropBuilders.PropBuilder.AnyExplicit` | jr-annotation-support/src/main/java/com/fasterxml/jackson/jr/annotationsupport/AnnotationBasedIntrospector.java:527-531 | true iff some present accessor is explicit |
| `PropBuilders.PropBuilder.AnyIgnorals` | jr-annotation-support/src/main/java/com/fasterxml/jackson/jr/annotationsupport/AnnotationBasedIntrospector.java:533-537 | true iff some present accessor is marked ignore |
| `PropBuilders.PropBuilder.CouldDeserialize` | jr-annotation-support/src/main/java/com/fasterxml/jackson/jr/annotationsupport/AnnotationBasedIntrospector.java:495-497 | true iff the field or the setter slot is filled; such a builder has an accessor |
| `PropBuilders.FiltersAgreeWithSummaries` | jr-annotation-support/src/main/java/com/fasterxml/jackson/jr/annotationsupport/AnnotationBasedIntrospector.java:97-116 | something is visible iff removing the non-visible accessors leaves one, and something is ignored iff removing the ignored accessors changes the builder |
| `PropBuilders.PropBuilder.FindPrimaryExplicitName` | jr-annotation-support/src/main/java/com/fasterxml/jackson/jr/annotationsupport/AnnotationBasedIntrospector.java:499-504 | a primary explicit name exists iff some accessor claims a name; when serializing a naming getter wins, then a naming setter, then the field; when deserializing a naming setter wins, then the getter, then the field |
| `PropBuilders.PropBuilder.WithName` | jr-annotation-support/src/main/java/com/fasterxml/jackson/jr/annotationsupport/AnnotationBasedIntrospector.java:463-469 | renaming keeps every slot |
| `PropBuilders.PropBuilder.AsProperty` | jr-annotation-support/src/main/java/com/fasterxml/jackson/jr/annotationsupport/AnnotationBasedIntrospector.java:421-427 | the property carries the builder's name and the member of each non-empty slot |
| `PropBuilders.EmptyBuilder` | jr-annotation-support/src/main/java/com/fasterxml/jackson/jr/annotationsupport/AnnotationBasedIntrospector.java:417-419 | a new builder has its name and no accessor |
| `PropBuilders.FirstExplicit` | jr-annotation-support/src/main/java/com/fasterxml/jackson/jr/annotationsupport/AnnotationBasedIntrospector.java:506-519 | a naming first accessor supplies the name; otherwise a naming second, otherwise a naming third; none iff none claims one |
| `PropBuilders.MergeSlot` | jr-annotation-support/src/main/java/com/fasterxml/jackson/jr/annotationsupport/AnnotationBasedIntrospector.java:437-461 | merging two slots picks one of them, and a missing side yields the other |
| `PropBuilders.MergeSlotPrefersStrongerClaim` | jr-annotation-support/src/main/java/com/fasterxml/jackson/jr/annotationsupport/AnnotationBasedIntrospector.java:446-460 | the merged slot is the second accessor only when it claims strictly more (named over explicit over plain); ties keep the first |
| `PropBuilders.Merge` | jr-annotation-support/src/main/java/com/fasterxml/jackson/jr/annotationsupport/AnnotationBasedIntrospector.java:429-435 | the merged builder keeps the first builder's name and merges slot by slot |
| `PropBuilders.MergeKeepsEveryRole` | jr-annotation-support/src/main/java/com/fasterxml/jackson/jr/annotationsupport/AnnotationBasedIntrospector.java:429-435 | a merged builder has a field, getter or setter exactly when either input had one, and each comes from one of the inputs |
| `PropBuilders.PrimaryNameDirectionIndependent` | jr-annotation-support/src/main/java/com/fasterxml/jackson/jr/annotationsupport/AnnotationBasedIntrospector.java:499-504 | when a single accessor claims a name, serialization and deserialization choose the same primary name |
| `MemberScan.ToLower` | jr-annotation-support/src/main/java/com/fasterxml/jackson/jr/annotationsupport/AnnotationBasedIntrospector.java:388 | lower-casing changes exactly the upper-case letters, each to the letter 32 code points above it |
| `MemberScan.IsFieldVisible` | jr-annotation-support/src/main/java/com/fasterxml/jackson/jr/annotationsupport/AnnotationBasedIntrospector.java:328-332 | a field is visible iff it is public and not transient |
| `MemberScan.IsGetterVisible` | jr-annotation-support/src/main/java/com/fasterxml/jackson/jr/annotationsupport/AnnotationBasedIntrospector.java:334-336 | a getter is visible iff it is public |
| `MemberScan.IsSetterVisible` | jr-annotation-support/src/main/java/com/fasterxml/jackson/jr/annotationsupport/AnnotationBasedIntrospector.java:338-340 | a setter is visible iff it is public, the same test as for getters |
| `MemberScan.Decap` | jr-annotation-support/src/main/java/com/fasterxml/jackson/jr/annotationsupport/AnnotationBasedIntrospector.java:386-400 | keeps length and all but the first character; changes the first exactly when it is upper case and the second is not |
| `MemberScan.DecapExamples` | jr-annotation-support/src/main/java/com/fasterxml/jackson/jr/annotationsupport/AnnotationBasedIntrospector.java:391-397 | `Name` becomes `name`, `URL` stays, `X` becomes `x`, `xValue` stays |
| `MemberScan.GetterImplName` | jr-annotation-support/src/main/java/com/fasterxml/jackson/jr/annotationsupport/AnnotationBasedIntrospector.java:227-236 | `getX`/`isX` imply the decapitalized rest; a bare `get`/`is` or any other name implies nothing |
| `MemberScan.SetterImplName` | jr-annotation-support/src/main/java/com/fasterxml/jackson/jr/annotationsupport/AnnotationBasedIntrospector.java:280-284 | a name implies a property exactly when it starts with `set` and is longer than three characters |
| `MemberScan.SignalledAccessor` | jr-annotation-support/src/main/java/com/fasterxml/jackson/jr/annotationsupport/AnnotationBasedIntrospector.java:165-181 | an ignore marker wins over an explicit name; a non-empty explicit name is claimed, an empty one only makes the member visible, and no marker gives an implicit accessor with the member's own visibility |
| `MemberScan.ExplicitOnlyAccessor` | jr-annotation-support/src/main/java/com/fasterxml/jackson/jr/annotationsupport/AnnotationBasedIntrospector.java:239-256 | an unconventionally named method is filed under its own name, ignored if marked so, otherwise explicit and visible and claiming a name iff the explicit name is non-empty |
| `MemberScan.FieldCandidate` | jr-annotation-support/src/main/java/com/fasterxml/jackson/jr/annotationsupport/AnnotationBasedIntrospector.java:155-183 | every field but enum constants and synthetic ones is filed under its own name in the field slot; an unmarked one has no name and is visible iff public and not transient |
| `MemberScan.GetterCandidate` | jr-annotation-support/src/main/java/com/fasterxml/jackson/jr/annotationsupport/AnnotationBasedIntrospector.java:218-273 | a zero-argument method goes to the getter slot of its implied name, made by the factory its markers select with public visibility; without an implied name only when it carries an explicit marker, under its own name; a boxed `Void` result is never a getter |
| `MemberScan.SetterCandidate` | jr-annotation-support/src/main/java/com/fasterxml/jackson/jr/annotationsupport/AnnotationBasedIntrospector.java:275-320 | a one-argument method goes to the setter slot of its implied name, made by the factory its markers select with public visibility; without an implied name only with an explicit marker, under its own name |
| `MemberScan.MethodCandidate` | jr-annotation-support/src/main/java/com/fasterxml/jackson/jr/annotationsupport/AnnotationBasedIntrospector.java:201-215 | static, synthetic, bridge methods and methods of two or more parameters yield nothing; a kept zero-argument method is checked as a getter, a kept one-argument method as a setter |
| `MemberScan.FieldCandidates` | jr-annotation-support/src/main/java/com/fasterxml/jackson/jr/annotationsupport/AnnotationBasedIntrospector.java:154-186 | every field accessor comes from one of the four factories |
| `MemberScan.DeclaredMethodCandidates` | jr-annotation-support/src/main/java/com/fasterxml/jackson/jr/annotationsupport/AnnotationBasedIntrospector.java:201-215 | every method accessor comes from one of the four factories |
| `MemberScan.MethodCandidates` | jr-annotation-support/src/main/java/com/fasterxml/jackson/jr/annotationsupport/AnnotationBasedIntrospector.java:192-199 | the superclass chain is scanned first and every accessor comes from a factory |
| `MemberScan.FileCandidate` | jr-annotation-support/src/main/java/com/fasterxml/jackson/jr/annotationsupport/AnnotationBasedIntrospector.java:371-378 | filing creates the builder on first use and overwrites exactly one slot of exactly one builder |
| `MemberScan.FileAll` | jr-annotation-support/src/main/java/com/fasterxml/jackson/jr/annotationsupport/AnnotationBasedIntrospector.java:154-216 | scanning keeps every name already present, and every builder no candidate names is unchanged |
| `MemberScan.FileAllKeys` | jr-annotation-support/src/main/java/com/fasterxml/jackson/jr/annotationsupport/AnnotationBasedIntrospector.java:154-216 | scanning adds exactly the candidates' names to the builder map |
| `MemberScan.CandidateKeys` | jr-annotation-support/src/main/java/com/fasterxml/jackson/jr/annotationsupport/AnnotationBasedIntrospector.java:183 | the names a run of candidates files under are exactly the keys of its candidates |
| `MemberScan.LaterCandidateOverwrites` | jr-annotation-support/src/main/java/com/fasterxml/jackson/jr/annotationsupport/AnnotationBasedIntrospector.java:183 | a second accessor for the same slot replaces the first |
| `MemberScan.FileAllAppend` | jr-annotation-support/src/main/java/com/fasterxml/jackson/jr/annotationsupport/AnnotationBasedIntrospector.java:197-198 | scanning two runs of members is scanning the first then the second |
| `MemberScan.FileAllSnoc` | jr-annotation-support/src/main/java/com/fasterxml/jackson/jr/annotationsupport/AnnotationBasedIntrospector.java:201-215 | scanning one more member either files its candidate or changes nothing |
| `MemberScan.FileAllWellScanned` | jr-annotation-support/src/main/java/com/fasterxml/jackson/jr/annotationsupport/AnnotationBasedIntrospector.java:371-378 | after scanning, every builder sits under its own name and holds only factory-made accessors |
| `MemberScan.LastCandidateWins` | jr-annotation-support/src/main/java/com/fasterxml/jackson/jr/annotationsupport/AnnotationBasedIntrospector.java:183 | a builder's slot holds the last candidate filed for that name and slot |
| `MemberScan.UntargetedSlotKept` | jr-annotation-support/src/main/java/com/fasterxml/jackson/jr/annotationsupport/AnnotationBasedIntrospector.java:272 | a slot no candidate targets keeps its previous accessor |
| `MemberScan.SubclassDeclarationWins` | jr-annotation-support/src/main/java/com/fasterxml/jackson/jr/annotationsupport/AnnotationBasedIntrospector.java:197-201 | when a class and its superclass both declare an accessor for the same slot, the subclass's one is kept |
| `MemberScan.LastWithShape` | jr-annotation-support/src/main/java/com/fasterxml/jackson/jr/annotationsupport/AnnotationBasedIntrospector.java:57-73 | the chosen constructor of a shape is absent iff none has that shape, otherwise the last declared one of that shape |
| `Pruning.AddIgnoral` | jr-annotation-support/src/main/java/com/fasterxml/jackson/jr/annotationsupport/AnnotationBasedIntrospector.java:380-384 | adding an ignorable name is a no-op when none are collected and adds exactly that name otherwise |
| `Pruning.Judge` | jr-annotation-support/src/main/java/com/fasterxml/jackson/jr/annotationsupport/AnnotationBasedIntrospector.java:95-126 | a builder is dropped iff nothing is visible or it is ignored without an explicit marker; its name becomes ignorable iff it is visible, ignored, and either unmarked or left without a field or setter; a builder with an ignored accessor and an explicit one loses only its ignored accessors and is never renamed; any other kept builder loses its non-visible accessors and is renamed iff what remains claims an explicit name, to that name |
| `Pruning.PrunePass` | jr-annotation-support/src/main/java/com/fasterxml/jackson/jr/annotationsupport/AnnotationBasedIntrospector.java:93-127 | the first pass only removes or replaces visited builders, leaves unvisited ones alone, and never changes whether ignorable names are collected |
| `Pruning.PrunePassOutcome` | jr-annotation-support/src/main/java/com/fasterxml/jackson/jr/annotationsupport/AnnotationBasedIntrospector.java:93-127 | after the first pass each visited builder is gone, kept under its name, or queued for renaming, as `Judge` rules |
| `Pruning.PrunePassRenamed` | jr-annotation-support/src/main/java/com/fasterxml/jackson/jr/annotationsupport/AnnotationBasedIntrospector.java:118-126 | the rename queue holds exactly the renamed builders of the visited names |
| `Pruning.PrunePassIgnorals` | jr-annotation-support/src/main/java/com/fasterxml/jackson/jr/annotationsupport/AnnotationBasedIntrospector.java:101-113 | the pass adds exactly the names `MarksIgnorable` picks among the visited builders |
| `Pruning.ApplyRename` | jr-annotation-support/src/main/java/com/fasterxml/jackson/jr/annotationsupport/AnnotationBasedIntrospector.java:131-139 | a renamed builder is stored under its new name, merged into any builder already there; nothing else changes |
| `Pruning.PruneStep` | jr-annotation-support/src/main/java/com/fasterxml/jackson/jr/annotationsupport/AnnotationBasedIntrospector.java:95-126 | visiting a name keeps it iff the judgement keeps it, stores the judged builder, changes no other name and creates the ignorable set only if it existed |
| `Pruning.ApplyRenames` | jr-annotation-support/src/main/java/com/fasterxml/jackson/jr/annotationsupport/AnnotationBasedIntrospector.java:130-140 | renaming keeps every name and leaves untouched the builders no queued builder names |
| `Pruning.MergeSurvivors` | jr-annotation-support/src/main/java/com/fasterxml/jackson/jr/annotationsupport/AnnotationBasedIntrospector.java:137 | merging two surviving builders gives a surviving builder |
| `Pruning.ApplyRenamesResolved` | jr-annotation-support/src/main/java/com/fasterxml/jackson/jr/annotationsupport/AnnotationBasedIntrospector.java:130-140 | after renaming, every builder sits under its own name with at least one accessor and none ignored |
| `Pruning.ApplyRenamesKeys` | jr-annotation-support/src/main/java/com/fasterxml/jackson/jr/annotationsupport/AnnotationBasedIntrospector.java:130-140 | a name is present after renaming iff it was present or is some queued builder's name |
| `Pruning.ApplyRenamesUntouched` | jr-annotation-support/src/main/java/com/fasterxml/jackson/jr/annotationsupport/AnnotationBasedIntrospector.java:130-140 | a builder whose name no queued builder takes is unchanged |
| `Pruning.SortedProps` | jr-annotation-support/src/main/java/com/fasterxml/jackson/jr/annotationsupport/AnnotationBasedIntrospector.java:143-151 | the output has one property per builder, in name order, each the builder's `asProperty` |
| `Pruning.SortedPropsShape` | jr-annotation-support/src/main/java/com/fasterxml/jackson/jr/annotationsupport/AnnotationBasedIntrospector.java:143-151 | output names are strictly ascending and each property is backed by a member |
| `Pruning.OutputNames` | jr-annotation-support/src/main/java/com/fasterxml/jackson/jr/annotationsupport/AnnotationBasedIntrospector.java:89-152 | a name is in the output iff its own builder was kept or some builder was renamed to it |
| `Pruning.PruneReadPropertiesContract` | jr-annotation-support/src/main/java/com/fasterxml/jackson/jr/annotationsupport/AnnotationBasedIntrospector.java:89-152 | for any iteration order: names unique and ascending, every property backed by a member, names exactly the kept builders and rename targets, ignorable set exactly the marked names |
| `Pruning.PruneReadProperties` | jr-annotation-support/src/main/java/com/fasterxml/jackson/jr/annotationsupport/AnnotationBasedIntrospector.java:89-152 | the ignorable set is returned exactly when one was passed in |
| `Pruning.LoneIgnoredMemberNotIgnorable` | jr-annotation-support/src/main/java/com/fasterxml/jackson/jr/annotationsupport/AnnotationBasedIntrospector.java:97-100 | a builder whose only accessor is ignored is dropped without making its name ignorable |
| `Pruning.GetterNameRenamesField` | jr-annotation-support/src/main/java/com/fasterxml/jackson/jr/annotationsupport/AnnotationBasedIntrospector.java:116-126 | a getter's explicit name renames the property and carries the plain field along |
| `Pruning.IgnoredFieldExplicitGetter` | jr-annotation-support/src/main/java/com/fasterxml/jackson/jr/annotationsupport/AnnotationBasedIntrospector.java:106-111 | an explicit getter survives an ignored field, and the name becomes ignorable because nothing can deserialize it |
| `Pruning.IgnoralBranchKeepsHiddenAndName` | jr-annotation-support/src/main/java/com/fasterxml/jackson/jr/annotationsupport/AnnotationBasedIntrospector.java:101-114 | the ignoral branch ends the iteration before `removeNonVisible` and renaming: a hidden setter stays and the getter's explicit name does not rename the builder |
| `Pruning.RenamedBuildersMerge` | jr-annotation-support/src/main/java/com/fasterxml/jackson/jr/annotationsupport/AnnotationBasedIntrospector.java:130-139 | two builders renamed to the same name are merged into one property |
| `Introspection.Scanned` | jr-annotation-support/src/main/java/com/fasterxml/jackson/jr/annotationsupport/AnnotationBasedIntrospector.java:76-77 | after the field and method scans every builder is keyed by its name and holds factory-made accessors |
| `Introspection.DefinitionContract` | jr-annotation-support/src/main/java/com/fasterxml/jackson/jr/annotationsupport/AnnotationBasedIntrospector.java:49-81 | a definition has ascending unique backed properties exactly from kept and renamed builders, no constructors when serializing, and a default constructor iff one is declared |
| `Introspection.Definition` | jr-annotation-support/src/main/java/com/fasterxml/jackson/jr/annotationsupport/AnnotationBasedIntrospector.java:49-81 | the definition names the type and has no constructors when serializing |
| `Introspection.DeserializationIgnorals` | jr-annotation-support/src/main/java/com/fasterxml/jackson/jr/annotationsupport/AnnotationBasedIntrospector.java:101-113 | deserializing collects exactly the names `MarksIgnorable` picks |
| `Introspection.Introspector.constructor` | jr-annotation-support/src/main/java/com/fasterxml/jackson/jr/annotationsupport/AnnotationBasedIntrospector.java:29-33 | a new introspector has no builders and collects ignorable names only for deserialization |
| `Introspection.Introspector.PojoDefinitionForDeserialization` | jr-annotation-support/src/main/java/com/fasterxml/jackson/jr/annotationsupport/AnnotationBasedIntrospector.java:35-37 | returns `Definition(t, false, order)` for the order the builder map was visited in |
| `Introspection.Introspector.PojoDefinitionForSerialization` | jr-annotation-support/src/main/java/com/fasterxml/jackson/jr/annotationsupport/AnnotationBasedIntrospector.java:39-41 | returns `Definition(t, true, order)` for the order the builder map was visited in |
| `Introspection.Introspector.IntrospectDefinition` | jr-annotation-support/src/main/java/com/fasterxml/jackson/jr/annotationsupport/AnnotationBasedIntrospector.java:49-81 | the constructor loop, the scans and the pruning pass together return `Definition` |
| `Introspection.Introspector.FindCreators` | jr-annotation-support/src/main/java/com/fasterxml/jackson/jr/annotationsupport/AnnotationBasedIntrospector.java:56-74 | the constructor loop keeps, for each of the no-argument, single-String and single-long shapes, the last declared constructor of that shape |
| `Introspection.Introspector.NoteCreator` | jr-annotation-support/src/main/java/com/fasterxml/jackson/jr/annotationsupport/AnnotationBasedIntrospector.java:58-72 | one constructor replaces the creator of its own shape and leaves the other two; a constructor of any other shape changes nothing |
| `Introspection.Introspector.PropBuilderFor` | jr-annotation-support/src/main/java/com/fasterxml/jackson/jr/annotationsupport/AnnotationBasedIntrospector.java:371-378 | finds or creates the builder of a name |
| `Introspection.Introspector.FileInto` | jr-annotation-support/src/main/java/com/fasterxml/jackson/jr/annotationsupport/AnnotationBasedIntrospector.java:183 | stores a candidate as `FileCandidate` says |
| `Introspection.Introspector.AddIgnoral` | jr-annotation-support/src/main/java/com/fasterxml/jackson/jr/annotationsupport/AnnotationBasedIntrospector.java:380-384 | updates the ignorable set as `Pruning.AddIgnoral` says |
| `Introspection.Introspector.FindFields` | jr-annotation-support/src/main/java/com/fasterxml/jackson/jr/annotationsupport/AnnotationBasedIntrospector.java:154-186 | the field loop files exactly `FieldCandidates` of the declared fields |
| `Introspection.Introspector.FieldAccessor` | jr-annotation-support/src/main/java/com/fasterxml/jackson/jr/annotationsupport/AnnotationBasedIntrospector.java:164-181 | the marker branching for a field builds exactly `SignalledAccessor`: an ignored field is ignorable and hidden, an unmarked one is visible iff `_isFieldVisible` |
| `Introspection.Introspector.FindMethods` | jr-annotation-support/src/main/java/com/fasterxml/jackson/jr/annotationsupport/AnnotationBasedIntrospector.java:188-190 | files exactly `MethodCandidates` of the type |
| `Introspection.Introspector.FindMethodsIn` | jr-annotation-support/src/main/java/com/fasterxml/jackson/jr/annotationsupport/AnnotationBasedIntrospector.java:192-216 | superclass first, then the declared methods: files exactly `MethodCandidates` |
| `Introspection.Introspector.FindDeclaredMethods` | jr-annotation-support/src/main/java/com/fasterxml/jackson/jr/annotationsupport/AnnotationBasedIntrospector.java:201-215 | the loop over one class's declared methods files exactly `DeclaredMethodCandidates` |
| `Introspection.Introspector.CheckGetterMethod` | jr-annotation-support/src/main/java/com/fasterxml/jackson/jr/annotationsupport/AnnotationBasedIntrospector.java:218-273 | the branching of `_checkGetterMethod` files exactly `GetterCandidate`, or nothing |
| `Introspection.Introspector.CheckSetterMethod` | jr-annotation-support/src/main/java/com/fasterxml/jackson/jr/annotationsupport/AnnotationBasedIntrospector.java:275-320 | the branching of `_checkSetterMethod` files exactly `SetterCandidate`, or nothing |
| `Introspection.Introspector.PruneReadProperties` | jr-annotation-support/src/main/java/com/fasterxml/jackson/jr/annotationsupport/AnnotationBasedIntrospector.java:89-152 | the iterator loop, the rename loop and the sort return `Pruning.PruneReadProperties` for the visit order taken |
| `Introspection.Introspector.PruneEntry` | jr-annotation-support/src/main/java/com/fasterxml/jackson/jr/annotationsupport/AnnotationBasedIntrospector.java:95-126 | one iteration of the first loop does what `PruneStep` says |
| `Introspection.Introspector.ApplyRenamesInPlace` | jr-annotation-support/src/main/java/com/fasterxml/jackson/jr/annotationsupport/AnnotationBasedIntrospector.java:130-140 | the second loop leaves the map `ApplyRenames` describes |
| `Introspection.Introspector.SortedProperties` | jr-annotation-support/src/main/java/com/fasterxml/jackson/jr/annotationsupport/AnnotationBasedIntrospector.java:143-151 | the sort and conversion loop yields `SortedProps` |
| `BeanReading.AliasTable` | jr-objects/src/main/java/com/fasterxml/jackson/jr/ob/impl/BeanReader.java:94-111 | primary names keep their readers; an alias is added iff it is not a primary name and its target is, bound to the target's reader |
| `BeanReading.AliasTableWithoutAliases` | jr-objects/src/main/java/com/fasterxml/jackson/jr/ob/impl/BeanReader.java:69-70 | without aliases the mixed table is the primary map, so skipping the mix-in changes nothing |
| `BeanReading.DispatchByName` | jr-objects/src/main/java/com/fasterxml/jackson/jr/ob/impl/BeanReader.java:66-92 | with the matcher built, a field name gets a slot iff it is a primary name or added alias, and the slot's reader is that name's reader; any other name is unknown |
| `BeanReading.CreateDefault` | jr-objects/src/main/java/com/fasterxml/jackson/jr/ob/impl/BeanReader.java:357-362 | succeeds iff there is a default constructor, with no argument and no properties set; otherwise fails with the default-constructor message |
| `BeanReading.CreateFromText` | jr-objects/src/main/java/com/fasterxml/jackson/jr/ob/impl/BeanReader.java:364-369 | succeeds iff there is a single-String constructor, passing the text; otherwise fails with the single-String message |
| `BeanReading.CreateFromLong` | jr-objects/src/main/java/com/fasterxml/jackson/jr/ob/impl/BeanReader.java:371-376 | a number outside `long` fails first; otherwise succeeds iff there is a single-long constructor |
| `BeanReading.ReportFailureToCreate` | jr-objects/src/main/java/com/fasterxml/jackson/jr/ob/impl/BeanReader.java:400-408 | an I/O error passes through unchanged; any other error is wrapped with the value type and its message |
| `BeanReading.ReadAt` | jr-objects/src/main/java/com/fasterxml/jackson/jr/ob/impl/BeanReader.java:141-168 | the cursor never moves back, and a bean read from an object ends on an end-of-object token; `ReadObjectRoundTrip` shows it is that object's own end for a well-formed object |
| `BeanReading.ReadBeanAt` | jr-objects/src/main/java/com/fasterxml/jackson/jr/ob/impl/BeanReader.java:203-262 | reading the properties ends, when it succeeds, on the end-of-object token |
| `BeanReading.HandleUnknownAt` | jr-objects/src/main/java/com/fasterxml/jackson/jr/ob/impl/BeanReader.java:378-398 | fails iff the strict policy is on and the name is not ignorable, with the name, the type and the sorted quoted primary names; otherwise skips exactly the value |
| `BeanReading.RecoveryRejectsUnknown` | jr-objects/src/main/java/com/fasterxml/jackson/jr/ob/impl/BeanReader.java:343-345 | in recovery under the strict policy a name that is neither primary nor ignorable fails with the unrecognized-property error on that name |
| `BeanReading.ReadWithUnknownAt` | jr-objects/src/main/java/com/fasterxml/jackson/jr/ob/impl/BeanReader.java:335-355 | recovery ends, when it succeeds, on the end-of-object token |
| `BeanReading.ReadRestAt` | jr-objects/src/main/java/com/fasterxml/jackson/jr/ob/impl/BeanReader.java:342-354 | the recovery loop ends, when it succeeds, on the end-of-object token |
| `BeanReading.ReadRestStrictness` | jr-objects/src/main/java/com/fasterxml/jackson/jr/ob/impl/BeanReader.java:342-349 | in the recovery loop the strict policy changes an outcome only into an unrecognized-property failure |
| `BeanReading.ReadBeanStrictness` | jr-objects/src/main/java/com/fasterxml/jackson/jr/ob/impl/BeanReader.java:203-262 | in the property loop the strict policy changes an outcome only into an unrecognized-property failure |
| `BeanReading.StrictOnlyAddsUnrecognized` | jr-objects/src/main/java/com/fasterxml/jackson/jr/ob/impl/BeanReader.java:379-394 | a strict read ends exactly as the lenient read does, or fails on an unrecognized property |
| `BeanReading.ReadRestLenient` | jr-objects/src/main/java/com/fasterxml/jackson/jr/ob/impl/BeanReader.java:379 | the lenient recovery loop never reports an unrecognized property |
| `BeanReading.ReadBeanLenient` | jr-objects/src/main/java/com/fasterxml/jackson/jr/ob/impl/BeanReader.java:379 | the lenient property loop never reports an unrecognized property |
| `BeanReading.LenientNeverUnrecognized` | jr-objects/src/main/java/com/fasterxml/jackson/jr/ob/impl/BeanReader.java:379 | with the strict policy off no read fails on an unknown property |
| `BeanReading.ByNameReaders` | jr-objects/src/main/java/com/fasterxml/jackson/jr/ob/impl/BeanReader.java:94-111 | every reader of the dispatch table, alias or not, is a primary property's reader |
| `BeanReading.ReadRestPopulates` | jr-objects/src/main/java/com/fasterxml/jackson/jr/ob/impl/BeanReader.java:342-349 | recovery keeps the constructor and every value set, and sets values only under primary property names |
| `BeanReading.ReadBeanPopulates` | jr-objects/src/main/java/com/fasterxml/jackson/jr/ob/impl/BeanReader.java:210-218 | the property loop keeps the constructor and every value set, and sets values only under primary property names |
| `BeanReading.ReadObjectPopulates` | jr-objects/src/main/java/com/fasterxml/jackson/jr/ob/impl/BeanReader.java:143-151 | a bean read from an object was made by the default constructor and has values only for primary properties |
| `BeanReading.ReadRestMembers` | jr-objects/src/main/java/com/fasterxml/jackson/jr/ob/impl/BeanReader.java:340-354 | the recovery loop over the members of a well-formed object stores exactly the values `Populated` gives for primary names and ends on the object's end; under the strict policy this holds when no member is rejected, that is, every name outside the primary map is ignorable |
| `BeanReading.ReadRestKnownMember` | jr-objects/src/main/java/com/fasterxml/jackson/jr/ob/impl/BeanReader.java:342-348 | one recovery step on a primary name stores the value its reader reads under the property's name and continues after the value |
| `BeanReading.ReadRestSkippedMember` | jr-objects/src/main/java/com/fasterxml/jackson/jr/ob/impl/BeanReader.java:343-346 | one recovery step on a name without a property that the policy tolerates (any name leniently, an ignorable one strictly) skips its whole value and continues after it |
| `BeanReading.ReadBeanKnownMember` | jr-objects/src/main/java/com/fasterxml/jackson/jr/ob/impl/BeanReader.java:208-213 | one matcher step on a known name stores its value through the name's reader and stays in the matcher loop |
| `BeanReading.ReadBeanKnownStep` | jr-objects/src/main/java/com/fasterxml/jackson/jr/ob/impl/BeanReader.java:208-213 | one matcher step on a matched name reads the value with that slot's reader, stores it under the slot's property and continues from where the value ended |
| `BeanReading.ReadBeanUnknownMember` | jr-objects/src/main/java/com/fasterxml/jackson/jr/ob/impl/BeanReader.java:255-257 | one matcher step on an unknown name that the policy tolerates (any name leniently, an ignorable one strictly) skips its value and continues in recovery |
| `BeanReading.ReadBeanMembers` | jr-objects/src/main/java/com/fasterxml/jackson/jr/ob/impl/BeanReader.java:203-262 | the matcher loop over the members of a well-formed object stores exactly the values `Populated` gives and ends on the object's end; under the strict policy this holds when no member is rejected |
| `BeanReading.ReadBeanMembersKnownHead` | jr-objects/src/main/java/com/fasterxml/jackson/jr/ob/impl/BeanReader.java:208-213 | when the first member's name is known, the matcher loop stores it and reads the rest as `Populated` says |
| `BeanReading.ReadBeanMembersUnknownHead` | jr-objects/src/main/java/com/fasterxml/jackson/jr/ob/impl/BeanReader.java:255-257 | when the first member's name is unknown and tolerated, the matcher loop skips it and recovery reads the rest as `Populated` says |
| `BeanReading.ReadObjectRoundTrip` | jr-objects/src/main/java/com/fasterxml/jackson/jr/ob/impl/BeanReader.java:141-168 | reading a well-formed object fails without a default constructor; otherwise it yields a default-constructed bean holding exactly `Populated` of the members, and ends on the object's end token. Leniently this holds for every well-formed object; under the strict policy it holds when no member is rejected (`FirstRejected` is `None`) |
| `BeanReading.FirstRejected` | jr-objects/src/main/java/com/fasterxml/jackson/jr/ob/impl/BeanReader.java:378-394 | the member a strict read rejects first: a name outside the table in force (aliases included until the first unknown name, primary names only after it) that is not ignorable; it is neither a property nor ignorable and occurs among the members |
| `BeanReading.KnownNamesAccepted` | jr-objects/src/main/java/com/fasterxml/jackson/jr/ob/impl/BeanReader.java:378-394 | members whose names are all in the table in force are never rejected |
| `BeanReading.ReadObjectStrict` | jr-objects/src/main/java/com/fasterxml/jackson/jr/ob/impl/BeanReader.java:378-394 | on a well-formed object with a default constructor, the strict read ends exactly as the lenient read iff no member is rejected; otherwise it fails with the unrecognized-property failure naming the first rejected member |
| `BeanReading.ReadObjectRejects` | jr-objects/src/main/java/com/fasterxml/jackson/jr/ob/impl/BeanReader.java:141-168 | a strict read of a well-formed object with a rejected member fails naming the first rejected member |
| `BeanReading.ReadBeanRejects` | jr-objects/src/main/java/com/fasterxml/jackson/jr/ob/impl/BeanReader.java:203-262 | strictly, before recovery, the first rejected member ends the read with the unrecognized-property failure naming it; known names before it are stored and an ignorable one starts recovery |
| `BeanReading.ReadBeanRejectsKnownHead` | jr-objects/src/main/java/com/fasterxml/jackson/jr/ob/impl/BeanReader.java:208-213 | strictly, a known first member is stored and the failure comes from the rest |
| `BeanReading.ReadRestRejects` | jr-objects/src/main/java/com/fasterxml/jackson/jr/ob/impl/BeanReader.java:340-349 | strictly, in recovery, the first rejected member ends the read with the unrecognized-property failure naming it |
| `BeanReading.MatcherRejectsUnknown` | jr-objects/src/main/java/com/fasterxml/jackson/jr/ob/impl/BeanReader.java:255-257 | strictly, a name neither in the dispatch table nor ignorable fails at once with the unrecognized-property failure on that name |
| `BeanReading.ReadObjectSetsEveryMember` | jr-objects/src/main/java/com/fasterxml/jackson/jr/ob/impl/BeanReader.java:208-218 | when every name is known, each member's value ends up in its property unless a later member sets the same property |
| `BeanReading.ReadObjectSetsMemberAfterUnknown` | jr-objects/src/main/java/com/fasterxml/jackson/jr/ob/impl/BeanReader.java:342-349 | leniently, after the first unknown name, every later member with a primary name sets its property, to the value of the last member that sets it |
| `BeanReading.PopulatedAfterUnknown` | jr-objects/src/main/java/com/fasterxml/jackson/jr/ob/impl/BeanReader.java:342-349 | after the first unknown name, a member with a primary name sets its property to its value unless a later member sets the same property |
| `BeanReading.PopulatedLastWins` | jr-objects/src/main/java/com/fasterxml/jackson/jr/ob/impl/BeanReader.java:208-218 | the value stored for a property is the value of the last member that sets it |
| `BeanReading.PopulatedUntouched` | jr-objects/src/main/java/com/fasterxml/jackson/jr/ob/impl/BeanReader.java:208-218 | a property no member sets keeps its old value |
| `BeanReading.PopulatedFirstUnknown` | jr-objects/src/main/java/com/fasterxml/jackson/jr/ob/impl/BeanReader.java:255-257 | members before the first unknown name are matched through the dispatch table with aliases, the unknown member sets nothing, and the members after it are matched by primary name only |
| `BeanReading.AliasReadsPrimaryProperty` | jr-objects/src/main/java/com/fasterxml/jackson/jr/ob/impl/BeanReader.java:94-111 | `{"fullName":"Ann"}` with alias `fullName` for `name` sets `name` |
| `BeanReading.AliasUnknownAfterRecovery` | jr-objects/src/main/java/com/fasterxml/jackson/jr/ob/impl/BeanReader.java:342-347 | after an unknown property has been skipped, an alias is skipped as unknown too |
| `BeanReading.StrictReportsAliasAfterIgnorable` | jr-objects/src/main/java/com/fasterxml/jackson/jr/ob/impl/BeanReader.java:378-394 | strictly, an ignorable name is skipped but an alias after it is reported unrecognized |
| `BeanReading.StrictSkipsIgnorable` | jr-objects/src/main/java/com/fasterxml/jackson/jr/ob/impl/BeanReader.java:378-397 | strictly, `{"extra":true}` with `extra` ignorable is skipped and the read succeeds with no property set |
| `BeanReading.StringWithoutStringConstructor` | jr-objects/src/main/java/com/fasterxml/jackson/jr/ob/impl/BeanReader.java:364-367 | a JSON String without a single-String constructor fails naming the type and the missing constructor |
| `BeanReading.LongOutOfRangeBeforeConstructor` | jr-objects/src/main/java/com/fasterxml/jackson/jr/ob/impl/BeanReader.java:159-160 | an integer beyond `long` fails in the token layer before any constructor is looked for |
| `BeanReading.ArrayCannotCreateBean` | jr-objects/src/main/java/com/fasterxml/jackson/jr/ob/impl/BeanReader.java:166-167 | an array cannot start a bean and the failure says `JSON Array` |
| `BeanReading.ExhaustedInputCannotCreateBean` | jr-objects/src/main/java/com/fasterxml/jackson/jr/ob/impl/BeanReader.java:184-200 | `readNext` on an exhausted input cannot create a bean and describes the missing token as `NULL` |
| `BeanReaders.BeanReader.constructor` | jr-objects/src/main/java/com/fasterxml/jackson/jr/ob/impl/BeanReader.java:49-60 | stores the properties, constructors, ignorable names and aliases; the matcher is not built yet |
| `BeanReaders.BeanReader.Construct` | jr-objects/src/main/java/com/fasterxml/jackson/jr/ob/impl/BeanReader.java:116-128 | a missing ignorable set or alias map becomes empty |
| `BeanReaders.BeanReader.FindProperty` | jr-objects/src/main/java/com/fasterxml/jackson/jr/ob/impl/BeanReader.java:132-134 | finds primary names only; an alias is never found |
| `BeanReaders.BeanReader.MixInAliases` | jr-objects/src/main/java/com/fasterxml/jackson/jr/ob/impl/BeanReader.java:94-111 | the loop over the aliases builds exactly `AliasTable` |
| `BeanReaders.BeanReader.InitFieldMatcher` | jr-objects/src/main/java/com/fasterxml/jackson/jr/ob/impl/BeanReader.java:66-92 | leaves the matcher built: every name of the table once, each with its reader at the same index |
| `BeanReaders.BeanReader.Entries` | jr-objects/src/main/java/com/fasterxml/jackson/jr/ob/impl/BeanReader.java:72-79 | the entry loop lists each name once and stores its reader at its index |
| `BeanReaders.BeanReader.HandleUnknown` | jr-objects/src/main/java/com/fasterxml/jackson/jr/ob/impl/BeanReader.java:378-398 | fails or skips as `HandleUnknownAt` says; the sorted, quoted name list built with the string builder is `KnownNames` |
| `BeanReaders.BeanReader.QuoteAll` | jr-objects/src/main/java/com/fasterxml/jackson/jr/ob/impl/BeanReader.java:383-390 | the string-builder loop produces exactly `QuotedList` of the sorted names |
| `BeanReaders.BeanReader.ReadWithUnknown` | jr-objects/src/main/java/com/fasterxml/jackson/jr/ob/impl/BeanReader.java:335-355 | the recovery loop computes `ReadWithUnknownAt` |
| `BeanReaders.BeanReader.ReadBean` | jr-objects/src/main/java/com/fasterxml/jackson/jr/ob/impl/BeanReader.java:203-262 | the matcher loop computes `ReadBeanAt` |
| `BeanReaders.BeanReader.Read` | jr-objects/src/main/java/com/fasterxml/jackson/jr/ob/impl/BeanReader.java:140-168 | `read` computes `ReadAt` at the current token |
| `BeanReaders.BeanReader.ReadNext` | jr-objects/src/main/java/com/fasterxml/jackson/jr/ob/impl/BeanReader.java:170-201 | `readNext` computes `ReadAt` one token further on |

## Left out

- Reflection and annotation lookup (`getDeclaredFields`, `getDeclaredMethods`, `getDeclaredConstructors`, `_hasIgnoreMarker`, `_findExplicitName`, `_find`) are not modelled. Their answers are input data: `FieldInfo`, `MethodInfo`, `CtorInfo` and `Signals`.
- Return types of getters are reduced to one flag for the boxed `Void` class, the only one the code rejects; a primitive `void getX()` is still a getter.
- `Field`, `Method` and `Constructor` objects are member identifiers (`MemberId`). Parameter and return types are reduced to the cases the code tests: `String`, `Long`/`long`, boxed `Void`.
- `HashMap` iteration order is unspecified in Java. Every loop over a map picks an arbitrary next key, and the pruning results are stated for every possible visit order.
- Builders are values in a map. The in-place slot updates of `APropBuilder` become replacing the map entry. No builder is shared between two keys in the source either.
- `Collections.sort` of the builders is modelled as sorting their keys. Every builder reaching the sort sits under its own name, which `Pruning.ApplyRenamesResolved` proves.
- `POJODefinition.Prop`'s `isGetter` argument is always null in this code and is not modelled.
- The collected ignorable names are not part of the returned definition, as in the code. `Introspection.DeserializationIgnorals` states what they are.
- `MemberScan.ToLower`, `MemberScan.Decap`: only ASCII letters are upper case. Java's Unicode case mapping (`Character.toLowerCase`, `Character.isUpperCase`) is not modelled.
- The JSON tokenizer is not modelled: the input is a finished token sequence. Parser features and token locations are left out.
- The field-name matcher's hashing is not modelled. A matched name's slot is its index in the name list, and the matcher's answer for a token that is neither a field name nor an object end is a third sentinel.
- `Tokens.SkipEnd`: like `skipChildren`, the model counts `}` and `]` alike when tracking depth, so ill-nested input is not rejected; the matching end is proved only for well-formed values (`Tokens.SkipEndOnValue`).
- `BeanReading.ReadObjectRoundTrip`: the exact result is stated for well-formed objects only; for ill-formed token sequences only the bounds of `ReadAt` and the populate lemmas apply. The strict-policy failure for a rejected member is stated separately, by `BeanReading.ReadObjectStrict`.
- `ValueReaders.ValueReader.ReadAt`: nested readers for property values are abstracted as taking the tokens of exactly one JSON value. What they decode and how they fail is not modelled.
- `setValueFor`, `newInstance` and `setCurrentValue` are not modelled as Java calls. The bean is a value recording its constructor, argument and the value set for each property; exceptions thrown by reflection are left out.
- Exceptions are `Failure` values holding the data of each message. `JSONObjectException`'s formatting and location information are left out, as is the message text of `_reportProblem` (the failure keeps the offending token).
- `getLongValue` overflow is modelled as the token layer's I/O error for an integer outside the 64-bit range. `_reportFailureToCreate` passes it through.
- Of the reader's features only `FAIL_ON_UNKNOWN_BEAN_PROPERTY` is modelled, as a boolean parameter.
- `BeanReaders.BeanReader.ReadBean`: the source unrolls the matcher loop body twice. The model runs one iteration per property, which reads the same tokens and sets the same values.
- The `TokenStreamFactory` argument of `initFieldMatcher` and the commented-out case-insensitive matcher are not modelled.
- `propertiesByName()` and `valueType()` are plain field reads and are not separate members.
- Value types (`Class<?>`) are represented by their names.
