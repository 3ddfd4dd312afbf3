# LambdaStack, verified

LambdaStack turns layered YAML documents into the plan of a cluster: user documents are merged over
default documents, an infrastructure plan is built from the merged cluster model, configuration documents
are selected for its components, and an Ansible inventory is written. This project models those algorithms
in Dafny, in the form the program gives them (functions for expressions, methods with loops and classes
with fields for code that updates documents in place), and proves what holds of them for every input and
every run.

Verify the whole project with `dafny verify dfyconfig.toml`.

## The modules

- **Document merge.** `Trees` and `Merge` define documents and the deep merge as functions on values.
  `MergeFacts`, `MergeLaws`, `NamedLists`, `MergeOutcome`, `Absorption` and `Lookup` prove what the merge means: key
  by key, name by name, path by path, its algebra, and exactly when it fails. `Documents`, `HeapLists` and
  `HeapMerge` run the merge in place on dictionaries and lists on the heap and prove that it spells the merge of
  values. `YesNo` and `HeapYesNo` do the same for the yes/no replacement.
- **Layering.** `Layering` is the recursion over `based_on` chains on values, `LayerFold` proves it a left fold,
  and `ConfigMerger` is the making of documents from default files.
- **The loop over the input.** What the program merges into a default document joins it as the object it is, so
  documents come to share dictionaries. `SharedNodes` gives documents the identity of their dictionaries and
  lists, `SharedMerge` is the merge on them, `DefaultMerger` the loop. `SharedLayering` proves when every result
  is its document's layered version; `SmallDocuments`, `SharedDefaults`, `SharedRuns`, `SharedTurns` and
  `SharedValues` work out runs in which it is not, and `SharedExactly` draws the line.
- **AWS plan.** `Naming`, `AwsPlan` (the plan as a function), `AwsLaws` (subnets, groups and associations),
  `AwsRules` (security rules), `AwsPorts` (exactly when comparing them ends with an error), `AwsReferences` (closure),
  `AwsNfs` (the rules that let machines mount the file system), `AwsFileSystem` (exactly when the run fails),
  `AwsMachines` (what every component gets in the finished plan) and `AwsBuilder` (the run: one list of documents
  searched while it grows, groups updated in place).
- **Azure plan.** `AzurePlan` (function and run), `AzureLaws`, `AzureWiring` and `AzureMachines` (public addresses
  and availability sets).
- **Runs over time.** `OsImages`, `ImageRequests` (who gets which image), `OsImageBuilder`, `ApplyEngine` (one apply),
  `ApplyGuards` (exactly when it is turned down), `ApplyRuns` (sequences of applies, and what becomes of the images)
  and `ApplyGroups` (what becomes of the guarded groups of hosts).
- **Configuration and inventory.** `ConfigurationAppender`, `ConfigurationListing` (the output in its order) and
  `AppenderRun`, `ConfiguredInventory`, `Inventory`, `InventoryOrder`, `InventoryText` (the printer and the Rakefile's
  reader), `InventoryScan` (the reader on any text), `InventoryReading`, `InventoryRoundTrip` and `InventoryCount`
  (the text scanners of the test suite).
- **Parent paths.** `ParentPaths`.

## What the model takes for granted

- Documents are trees of dictionaries with string keys, lists and scalars. Names of list items are scalars,
  and an item with a `_merge` key has no name (`NamesScalar`).
- Default documents, image identifiers, host addresses, system families and feature mappings read from
  files or providers are parameters.
- Input documents are loaded without YAML aliases, so no two of them share an object.
- In a merge of documents that share objects, an object of the extension is met in the base at its own place
  only: it came there from that place of the extension.
- Ports of the security rules in the input and the defaults are text or numbers; their other fields, and the
  ports of the rules the program adds, are text.
- In the AWS and Azure plans every document made from a default is a new one. When the input holds a document
  of such a kind the program hands out that one document each time, and the plan's invariants do not hold.
- Names are ASCII as far as lower-casing goes.
- `ApplyGuards` takes it that components have different keys and groups of the inventory different roles, as in a
  dictionary and in an inventory that an apply has written (`ApplyGuards.RolesStayDifferent`).

## Where the code and its comments part

- DefaultMerger.py:36 merges the user's 'default' document of the kind into the default file, and line 108 of
  objdict_helpers.py stores that document's own dictionaries there. Line 38 and the replacement of line 17 then
  write them, so the documents of a kind end up with the last value written to any of them.
  `SharedLayering.RunIsLayering` gives the condition under which the loop is the layering,
  `SharedExactly.SafeExactly` proves it exact, and `EarlierResultRewritten`, `LastWriteWins` and `ParentWins`
  are inputs on which the two part.
- aws/InfrastructureBuilder.py:232-234 looks for an existing NFS rule by comparing the port with the number
  2049, and line 240 stores the text "2049". The search finds no rule the step has added, so a subnet that two
  groups of machines use gets two rules. `AwsNfs.RulesPerCidr` counts them for every CIDR,
  `AwsNfs.OneRuleEachExactly` says when there is one for each, and `AwsNfs.MastersAndNodesTwice` is the default
  cluster's case.
- aws/InfrastructureBuilder.py:324 lower-cases the ports of two rules of one direction and protocol, which ends
  the run with an error when one of the ports is a number. The plan functions say what the run builds when no
  search ends so; `AwsPorts.RaisesExactly` states exactly when one does, and `AwsPorts.NumberRaises` is an input.
- ApplyEngine.py:125-144 compares the postgresql group with the count of the component of that name, but other
  components can put hosts into the group. `ApplyGroups.PostgresStepExactly` states exactly when an apply that
  passes the guard keeps the group's size, and `ApplyGroups.CustomGrows` is an input on which it does not.
- azure/InfrastructureBuilder.py carries `nsg` from one loop iteration to the next, so an interface can get
  the security group of another subnet. `AzureWiring.WiringByName` states exactly when the wiring is right,
  `AzureWiring.WiredWhenConsecutive` and `AzureWiring.WiringExactly` say so in terms of the input, and
  `AzureWiring.InterleavedMiswired` gives a cluster on which it is not.
- objdict_helpers.py:100 decides on the raw types and line 48 on the raw names, so turning yes/no strings into
  booleans can make a merge fail that succeeded before: on a word replaced on one side only, or on two names of
  a list that spell the same boolean. `YesNo.NormalisedMergeSucceeds` states exactly when, given that the raw
  merge succeeds; `YesNo.OneSidedWordFails` and `YesNo.NamesCollideAfterwards` are inputs for both.

## Model

| member | source | states |
|---|---|---|
| MergeFacts.ObjCharacterised | cli/helpers/objdict_helpers.py:91-108 | the merge of two objects succeeds exactly when no shared key holds values that cannot be merged; keys keep the base's order, new keys follow in theirs, and each key has its field |
| MergeFacts.MergeKeepsWellFormed | cli/helpers/objdict_helpers.py:91-108 | merging dictionaries yields dictionaries: keys stay distinct at every depth |
| MergeFacts.AppendCharacterised | cli/helpers/objdict_helpers.py:78-83 | although the second loop searches the list it is growing, it appends exactly the extension's items whose names the base lacks, in order |
| MergeLaws.EmptyIsIdentity | cli/helpers/objdict_helpers.py:91-108 | the empty object is an identity of the merge on both sides |
| MergeLaws.MergeIsAssociative | cli/helpers/objdict_helpers.py:86-108 | the merge of marker-free documents with unique names is associative: one grouping fails exactly when the other does, and results agree with their key order |
| NamedLists.MergedByName | cli/helpers/objdict_helpers.py:66-83 | with `_merge: true` the result lists the base names in order and then the new names in order, all distinct, and each name's item is the merge of both or the only one there is |
| MergeOutcome.ControlItemDecides | cli/helpers/objdict_helpers.py:57-85 | for two named lists with unique names the first control item of the extension decides: with `false` the extension's named items replace the list, with `true` the lists merge by name, and anything else is an error |
| MergeOutcome.NoControlReplaces | cli/helpers/objdict_helpers.py:58-60 | without a control item the list is replaced by the extension as it is |
| MergeOutcome.NamedOnlyNames | cli/helpers/objdict_helpers.py:85-85 | what replaces the list has the same names in the same order, and every named item itself |
| MergeOutcome.RepeatedNamesFail | cli/helpers/objdict_helpers.py:66-68 | repeated names are an error where the control item is none, those of the default reported before those of the input |
| MergeOutcome.MergesExactly | cli/helpers/objdict_helpers.py:55-108 | a merge succeeds exactly when nothing that meets is of different types and named lists that meet have unique names, a boolean in their first control item and, merged by name, a name in every base item if the extension has any and compatible namesakes |
| MergeOutcome.FirstClashReported | cli/helpers/objdict_helpers.py:91-105 | a merge of objects that fails reports the failure of the first key of the extension whose values do not merge |
| Absorption.MergeAbsorbs | cli/helpers/objdict_helpers.py:55-108 | merging an extension a second time changes nothing, and the result holds no control item, when control items meet named lists of a marker-free base |
| Absorption.MarkerFreeExactly | cli/helpers/objdict_helpers.py:55-108 | over a marker-free base the merge holds no control item exactly when those of the extension meet named lists of the base |
| Absorption.SelfMerge | cli/helpers/objdict_helpers.py:91-108 | a plain document merged with itself is itself |
| Absorption.UnmetMarkerBreaks | cli/helpers/objdict_helpers.py:70-73 | a list with `_merge: true` under a key the base lacks leaves its control item in the result, and merging it once more fails on the item's missing name |
| Lookup.LookupLaw | cli/helpers/objdict_helpers.py:55-108 | at every path of keys and item names the merge holds the scalar of the document that a walk over the two inputs names, and no other |
| Lookup.ExtensionScalarsAppear | cli/helpers/objdict_helpers.py:91-108 | every scalar of the extension is in the merge at its own path |
| HeapLists.FindNamed | cli/helpers/objdict_helpers.py:73-73 | the search by name finds the first item of the name, or that there is none |
| HeapLists.NamesDistinct | cli/helpers/objdict_helpers.py:47-51 | the check on names answers whether all names of a list differ |
| HeapLists.ReadFlag | cli/helpers/objdict_helpers.py:58-64 | the merge strategy is what the first control item says, `false` as well as `true`, overwriting without one, an error when it is no boolean |
| HeapLists.KeepNamed | cli/helpers/objdict_helpers.py:85-85 | overwriting a named list makes a new list of the same named objects, control items left out |
| HeapMerge.MergeNamesakes | cli/helpers/objdict_helpers.py:72-75 | the first loop takes every namesake into the base item in place and shares objects with namesakes only |
| HeapMerge.AppendNewItems | cli/helpers/objdict_helpers.py:78-83 | the second loop appends the extension's own objects whose names are not taken |
| HeapMerge.MergeList | cli/helpers/objdict_helpers.py:55-88 | the list merge in place spells the list merge of values, errors included |
| HeapMerge.MergeObjdict | cli/helpers/objdict_helpers.py:91-108 | on disjoint documents the merge in place ends, writes no object of the extension, leaves the base equal to the merge of values, and every dictionary of the result is the base's or the extension's |
| YesNo.NormaliseKeepsShape | cli/helpers/objdict_helpers.py:127-139 | only strings that objects hold directly change, the yes words into true and the no words into false; keys, lengths and all other scalars stay |
| YesNo.NormalIsFixed | cli/helpers/objdict_helpers.py:127-139 | the documents it leaves alone are exactly those in which no object holds a yes/no string |
| YesNo.NormaliseIsIdempotent | cli/helpers/objdict_helpers.py:127-139 | replacing a second time changes nothing |
| YesNo.ObjectCommutes | cli/helpers/objdict_helpers.py:91-139 | replacing and merging commute on marker-free documents whenever both merges succeed |
| YesNo.NormalisedMergeSucceeds | cli/helpers/objdict_helpers.py:47-108 | given that the raw merge succeeds, the merge after the replacement does exactly when, wherever the documents meet, both values spell a boolean or neither does, and the names of named lists that meet stay different |
| YesNo.OneSidedWordFails | cli/helpers/objdict_helpers.py:100-105 | an input whose merge fails only after the replacement, because a word is replaced on one side |
| YesNo.NamesCollideAfterwards | cli/helpers/objdict_helpers.py:47-51 | an input whose merge fails only after the replacement, because two names become the same boolean |
| HeapYesNo.ReplaceYesNo | cli/helpers/objdict_helpers.py:127-139 | the replacement in place turns a document into the normalised one, made of the same objects |
| Layering.ReturnsExactlyOnAcyclicChains | cli/engine/schema/DefaultMerger.py:25-32 | the recursion over parents fails to come back exactly when the chain meets a file twice |
| Layering.SelectsFirst | cli/helpers/doc_list_helpers.py:1-12 | a search by name finds the first document of the name, unless one before it has none, which is the error |
| Layering.ParentIsNamed | cli/engine/schema/DefaultMerger.py:26-28 | the parent of a document is the first file of the name it is based on, and is unknown only if all files have other names |
| Layering.ConfigIsFirst | cli/engine/schema/DefaultMerger.py:33-33 | the user's 'default' document of a kind is the first one; a document without a name before it, or a 'default' one without a kind, is the error |
| LayerFold.MergeParentIsFold | cli/engine/schema/DefaultMerger.py:25-39 | on values, layering is the left fold of the merge over the default, the root ancestor and so on down to the document, the version aside, where a chain through the default file skips it as long as what is merged by then is plain; it fails exactly when the fold does or a version is no string, and the document's own version wins |
| LayerFold.BaseIsFold | cli/engine/schema/DefaultMerger.py:33-36 | the first layers are the default file and the user's document named 'default' |
| LayerFold.BasedOnDefaultAddsNothing | cli/engine/schema/DefaultMerger.py:28-31 | a chain through the default file merges that object with itself and so adds nothing |
| LayerFold.DefaultDocMergedOnce | cli/engine/schema/DefaultMerger.py:33-38 | a user document named 'default' is merged twice and comes out as if merged once |
| LayerFold.ChainCollapses | cli/engine/schema/DefaultMerger.py:25-39 | plain layers may be merged with one another first and then over the base |
| SharedNodes.LabelNormalised | cli/helpers/objdict_helpers.py:127-139 | the replacement keeps the identity of every dictionary and list |
| SharedNodes.OtherTurnsUnseen | cli/engine/schema/DefaultMerger.py:16-21 | what is written to the objects of one document's turn does not show in a document made of another turn's objects |
| SharedNodes.InputUnseen | cli/engine/schema/DefaultMerger.py:38-38 | a result in which an input document's objects look as they do there shows that document nothing new |
| SharedMerge.OverIsMerge | cli/helpers/objdict_helpers.py:55-108 | on what the documents say, the merge that keeps identities is the merge of values, errors included |
| SharedMerge.OverOwn | cli/helpers/objdict_helpers.py:91-108 | the merged document is made of the objects of the two and of lists the merge made, and the extension's objects that join a base without them keep their look |
| SharedLayering.HeadReadable | cli/engine/schema/DefaultMerger.py:17-19 | after the replacement the files of a document can be named and its name be written in the message exactly when provider, kind and name are texts that spell no boolean |
| DefaultMerger.Merger.Run | cli/engine/schema/DefaultMerger.py:13-23 | the loop leaves input documents and results as its turns do, each replacing a document in place, layering it, and letting every other document see what was written; the first failure ends the run, a provider, kind or name that is no text included, and unless a merge failed it leaves everything as after that turn's replacement |
| SharedLayering.TurnIsMergeOne | cli/engine/schema/DefaultMerger.py:16-21 | a turn that meets no other 'default' document gives the layered version, fails as layering does or as a provider, kind or name that is no text makes it, and writes nothing that other documents or earlier results show |
| SharedLayering.RunIsLayering | cli/engine/schema/DefaultMerger.py:13-39 | when no document is merged over another one named 'default', nor over itself below a parent, every result is in the end its document layered over its defaults with the documents up to it normalised, the first failing layering is the run's failure, and documents not named 'default' are left normalised and otherwise as given |
| SharedExactly.SafeExactly | cli/engine/schema/DefaultMerger.py:25-39 | the loop gives the layered versions, whatever else is in the documents and in the schema files of their kinds, exactly when every document named 'default' is the only one of its kind and based on no other |
| SharedExactly.SharedEntry | cli/engine/schema/DefaultMerger.py:33-38 | in runs where a 'default' document's dictionary takes a second entry, every result of the kind and that input document show the entry written last, while layering gives each document its own, its parent's or the one of the 'default' document as it stood |
| SharedExactly.EarlierResultRewritten | cli/engine/schema/DefaultMerger.py:16-21 | a result layered before the 'default' document's own turn says True where its layering says "yes" |
| SharedExactly.LastWriteWins | cli/engine/schema/DefaultMerger.py:33-38 | with the entry 1 in the 'default' document and 2 in a later one, the 'default' document, its result and the result of a third document all say 2 |
| SharedExactly.ParentWins | cli/engine/schema/DefaultMerger.py:26-36 | for a 'default' document based on a file, the file's entry wins over the document's own |
| ConfigMerger.MergeWithDefaults | cli/helpers/config_merger.py:9-20 | the steps over the loaded default document give the defaults, the user's default and the selected file layered in that order, failing where the program does |
| ConfigMerger.MadeBearsName | cli/helpers/config_merger.py:11-20 | a document made for a selector bears the selector's name |
| ConfigMerger.MadeBearsVersion | cli/helpers/config_merger.py:18-18 | a document made for another selector than 'default' has the program's version |
| ConfigMerger.MadeForDefault | cli/helpers/config_merger.py:11-20 | for the selector 'default' it is the first file of that name as it is, or nothing without one |
| ConfigMerger.MadeAsLayered | cli/helpers/config_merger.py:9-20 | it is, the version aside, what layering the selected file as an input document gives, and is made exactly when that succeeds |
| Naming.IndexedNamesInjective | cli/helpers/naming_helpers.py:9-21 | names with a kind and an index coincide exactly when the components do up to case and dashes and the indices do |
| Naming.NumberedNamesInjective | cli/engine/providers/aws/InfrastructureBuilder.py:178-180 | names with component and index coincide under the same condition |
| Naming.ComponentNamesInjective | cli/helpers/naming_helpers.py:9-21 | names of one resource per component coincide exactly when the components do up to case and dashes |
| AwsLaws.PlanShaped | cli/engine/providers/aws/InfrastructureBuilder.py:56-84 | after any number of components the plan has one subnet, one security group with its CIDR and one route association naming it for each first use of a CIDR |
| AwsLaws.CreationsDistinct | cli/engine/providers/aws/InfrastructureBuilder.py:64-84 | no CIDR is made twice, and component and index tell creations apart when component keys differ up to case and dashes |
| AwsLaws.OneGroupEach | cli/engine/providers/aws/InfrastructureBuilder.py:64-84 | each subnet has exactly one security group of its CIDR and a route association naming it, only one when component keys differ up to case and dashes |
| AwsLaws.FoundWhenCreated | cli/engine/providers/aws/InfrastructureBuilder.py:65-70 | subnet and security group of a CIDR are found together, exactly when the CIDR was used before |
| AwsRules.AddedRules | cli/engine/providers/aws/InfrastructureBuilder.py:88-91 | offering rules, when no comparison ends with an error, adds exactly those new up to case on five fields, each once, and keeps the old ones first |
| AwsRules.AddedInOrder | cli/engine/providers/aws/InfrastructureBuilder.py:88-91 | the rules added are the offered ones themselves, in their order, the first of every key the group has not |
| AwsRules.SameKeyExactly | cli/engine/providers/aws/InfrastructureBuilder.py:320-328 | two rules count as one exactly when direction, protocol, port, source and destination agree, case aside |
| AwsRules.CollectedRules | cli/engine/providers/aws/InfrastructureBuilder.py:88-91 | the rules of a CIDR, when no comparison ends with an error, are the defaults followed by pairwise different rules, and up to case they are the defaults and those of every enabled component using the CIDR, no others |
| AwsRules.CollectedFrom | cli/engine/providers/aws/InfrastructureBuilder.py:88-91 | every rule a CIDR has collected beyond the defaults is a rule of an enabled component using the CIDR |
| AwsRules.GroupsHoldCollected | cli/engine/providers/aws/InfrastructureBuilder.py:56-108 | every security group of the plan holds what its CIDR has collected |
| AwsRules.OrderDoesNotMatter | cli/engine/providers/aws/InfrastructureBuilder.py:88-91 | the set of rules a CIDR collects, up to case, depends on the components but not on their order |
| AwsRules.PlansAgree | cli/engine/providers/aws/InfrastructureBuilder.py:56-108 | two plans of the same components in different orders have security groups for the same CIDRs, and the groups of a CIDR have the same rules up to case |
| AwsPorts.OfferRaisesExactly | cli/engine/providers/aws/InfrastructureBuilder.py:320-328 | offering rules to a group ends with an error exactly when one of them is of the direction and protocol of a rule there or offered before it, one of the two ports is a number, and no equal rule comes first |
| AwsPorts.RaisesExactly | cli/engine/providers/aws/InfrastructureBuilder.py:56-91 | adding the components ends with an error exactly when this happens for some CIDR among all rules its enabled components offer |
| AwsPorts.TextNeverMeets | cli/engine/providers/aws/InfrastructureBuilder.py:320-328 | with text ports only no comparison ends with an error |
| AwsPorts.NumberRaises | cli/engine/providers/aws/InfrastructureBuilder.py:320-328 | a component whose second rule of one direction and protocol has a number as its port ends the run |
| AwsReferences.PlanClosed | cli/engine/providers/aws/InfrastructureBuilder.py:56-108 | at every iteration each subnet, security group, launch configuration, route table and gateway that a document names is in the plan |
| AwsReferences.SubnetNamesDistinct | cli/engine/providers/aws/InfrastructureBuilder.py:161-168 | subnet names and CIDRs are pairwise distinct when component keys differ up to case and dashes |
| AwsReferences.PlanTargetsGood | cli/engine/providers/aws/InfrastructureBuilder.py:289-297 | the file system has at most one mount target per zone, each on a subnet of the plan in that zone |
| AwsNfs.BuildSucceeds | cli/engine/providers/aws/InfrastructureBuilder.py:29-114 | with component keys that differ up to case and dashes no lookup of a single subnet raises, so the run succeeds exactly when comparing ports does |
| AwsNfs.RulesPerCidr | cli/engine/providers/aws/InfrastructureBuilder.py:223-243 | for every CIDR the rules added number exactly the listings of it by enabled components allowed to the file system, unless a rule with the number 2049 was there from the start; all are ingress TCP rules for port 2049 to any destination |
| AwsNfs.OneRuleEachExactly | cli/engine/providers/aws/InfrastructureBuilder.py:229-243 | each CIDR asked for has one rule exactly when none is asked for twice or open already |
| AwsNfs.MastersAndNodesTwice | cli/engine/providers/aws/InfrastructureBuilder.py:229-243 | masters and nodes on one subnet get two rules for it |
| AwsFileSystem.AsgsOfPlan | cli/engine/providers/aws/InfrastructureBuilder.py:140-149 | machine groups and enabled components correspond, each group of the component's count on subnets of its CIDRs with their zones |
| AwsFileSystem.LookupExactly | cli/engine/providers/aws/InfrastructureBuilder.py:229-230 | the single-subnet lookup succeeds exactly when no other subnet was made under the same key, up to case and dashes, and index |
| AwsFileSystem.BuildFailsExactly | cli/engine/providers/aws/InfrastructureBuilder.py:56-112 | the run fails exactly when two rules for a CIDR whose ports are not both text are compared, or some component mounts the file system and an authorized one uses a subnet with an ambiguous name |
| AwsMachines.BuiltMachines | cli/engine/providers/aws/InfrastructureBuilder.py:56-108 | in the finished plan every enabled component has, in order, one group of as many machines as its count, at each position on a subnet of that address pool with its zone, and the launch configuration it names, with its size, the key pair and at each position the security group of that address pool; and all references resolve |
| AwsMachines.BuiltHeader | cli/engine/providers/aws/InfrastructureBuilder.py:29-49 | the finished plan starts with the documents of the header, and the launch configurations use the key pair of its first one |
| AwsMachines.BuiltShaped | cli/engine/providers/aws/InfrastructureBuilder.py:56-84 | subnets, groups and associations of the finished plan are one of each per first use of a CIDR |
| AwsMachines.MachineNamesDistinct | cli/engine/providers/aws/InfrastructureBuilder.py:140-153 | names of two machine groups, and of two launch configurations, are equal exactly when their keys are up to case and dashes |
| AwsMachines.BuiltFileSystem | cli/engine/providers/aws/InfrastructureBuilder.py:102-112 | the finished plan has a file system document exactly when an enabled component mounts one on some subnet, with a mount target, on a subnet of the zone, for exactly the zones in which machines mount it |
| AwsBuilder.GroupDoc.RuleIn | cli/engine/providers/aws/InfrastructureBuilder.py:320-328 | the search answers whether the group has a rule equal up to case on the five fields, or ends with an error on the first rule of the same direction and protocol where one of the ports is a number |
| AwsBuilder.GroupDoc.Offer | cli/engine/providers/aws/InfrastructureBuilder.py:89-91 | rules are appended in place, each unless an equal one is there by then, up to the first search that ends with an error |
| AwsBuilder.Builder.AddSubnet | cli/engine/providers/aws/InfrastructureBuilder.py:64-84 | one subnet definition reuses the first subnet and group of its CIDR or appends subnet, group and association, and hands out the group object itself |
| AwsBuilder.Builder.AddOne | cli/engine/providers/aws/InfrastructureBuilder.py:56-108 | the loop body grows the list and updates groups in place as the plan function says, or ends with an error of the rule search |
| AwsBuilder.GroupDoc.LetsIn | cli/engine/providers/aws/InfrastructureBuilder.py:232-234 | the search answers whether a rule lets the CIDR in on the number 2049 |
| AwsBuilder.Builder.AllowInboundNfs | cli/engine/providers/aws/InfrastructureBuilder.py:223-243 | the rules for authorized groups are appended in place, each unless the search finds one, or the first failing lookup is reported |
| AwsBuilder.Builder.Run | cli/engine/providers/aws/InfrastructureBuilder.py:29-114 | the run builds the plan, groups listed once each as objects, and fails exactly when the plan cannot be built; what it builds has the machines, launch configurations, subnets and groups of the enabled components and no open reference |
| AzurePlan.AddMachines | cli/engine/providers/azure/InfrastructureBuilder.py:100-124 | the machines of a component are appended one by one, failing on a Windows machine or a missing key |
| AzurePlan.Run | cli/engine/providers/azure/InfrastructureBuilder.py:28-132 | the nested loops with their carried variables build the plan or report what the first failing component lacks |
| AzureLaws.PlanListed | cli/engine/providers/azure/InfrastructureBuilder.py:42-124 | after any number of components interfaces, machines, public addresses, subnets, groups and associations are, in order, those of the enabled components and of the components that made a subnet |
| AzureWiring.BuildSucceeds | cli/engine/providers/azure/InfrastructureBuilder.py:42-124 | the build fails exactly on an enabled component without a subnet, with Windows or without a key; the carried security group is never missing |
| AzureWiring.MachinesConserved | cli/engine/providers/azure/InfrastructureBuilder.py:100-124 | machines and interfaces each number the sum of the positive counts, and each machine names the interface of its own number |
| AzureMachines.PublicIpsConserved | cli/engine/providers/azure/InfrastructureBuilder.py:100-120 | with public addresses there is one for every machine, in the order of the interfaces, and each interface names its own; without them there is none and no interface names one |
| AzureMachines.AddressesClosed | cli/engine/providers/azure/InfrastructureBuilder.py:101-120 | every interface names a public address of the plan when they are used |
| AzureMachines.AddressesDistinct | cli/engine/providers/azure/InfrastructureBuilder.py:187-193 | public addresses are pairwise distinct exactly when the keys of the enabled components are up to case and dashes |
| AzureMachines.SetsExactly | cli/engine/providers/azure/InfrastructureBuilder.py:86-95 | the plan has exactly the availability sets that the input defines and an enabled component asks for, each once, and a machine in a set names one of them |
| AzureMachines.FixedDocuments | cli/engine/providers/azure/InfrastructureBuilder.py:28-132 | resource group, network and storage share come first and the cloud-init document last, one of each |
| AzureWiring.MachineNamesDistinct | cli/engine/providers/azure/InfrastructureBuilder.py:175-215 | machine and interface names are pairwise distinct exactly when the keys of the enabled components are up to case and dashes |
| AzureWiring.InterfacesClosed | cli/engine/providers/azure/InfrastructureBuilder.py:109-120 | every interface names a subnet of the plan and, where groups are used, a security group of the plan |
| AzureWiring.WiringByName | cli/engine/providers/azure/InfrastructureBuilder.py:70-120 | whatever the keys, the wiring is right exactly when the carried security group always has the name of the subnet's own |
| AzureWiring.WiredWhenConsecutive | cli/engine/providers/azure/InfrastructureBuilder.py:70-120 | whatever the keys, the wiring is right when enabled components sharing an address pool are consecutive |
| AzureWiring.WiringExactly | cli/engine/providers/azure/InfrastructureBuilder.py:70-120 | when the keys of enabled components differ up to case and dashes, it is right exactly then |
| AzureWiring.InterleavedMiswired | cli/engine/providers/azure/InfrastructureBuilder.py:70-120 | three components with interleaved pools are built and miswired |
| OsImages.PreservedIsKnown | cli/engine/providers/aws/InfrastructureBuilder.py:269-286 | with machines in the manifest a machine gets an image of the manifest whatever it asks for |
| OsImages.KeepsOwnExactly | cli/engine/providers/aws/InfrastructureBuilder.py:269-286 | a machine of the manifest keeps its image exactly unless it asks for the first machine's image and that is another |
| OsImages.BuiltAsAsked | cli/engine/providers/aws/InfrastructureBuilder.py:250-286 | a document of the input that several components use is updated by its first use and comes out the same at every further one |
| OsImages.BuiltImages | cli/engine/providers/azure/InfrastructureBuilder.py:224-269 | all images built are images of the manifest |
| OsImages.BuiltByRule | cli/engine/providers/aws/InfrastructureBuilder.py:250-286 | every machine built, from the input or from the provider's files, has the image preserved for what it asks |
| OsImages.BuiltInput | cli/engine/providers/aws/InfrastructureBuilder.py:250-286 | input documents that components use end with an image of the manifest, the others as they were |
| OsImages.NoMachinesNoBuild | cli/engine/providers/aws/InfrastructureBuilder.py:269-277 | a manifest without machines fails every build that needs one |
| ImageRequests.BuiltAsRequested | cli/engine/providers/aws/InfrastructureBuilder.py:250-286 | every machine built asks for the cluster's image where that is set and otherwise for that of its document, in the input or made from the files, and has the image preserved for it |
| ImageRequests.ClusterImageApplied | cli/engine/providers/aws/InfrastructureBuilder.py:262-286 | with a cluster-wide image every machine built has what is preserved for that image, and without a manifest the image itself |
| ImageRequests.PreserveExactly | cli/engine/providers/aws/InfrastructureBuilder.py:269-286 | without a manifest the request is granted; otherwise a machine that is not in it or asks for the first one's image gets that, and any other keeps its own |
| ImageRequests.UsedAsRequested | cli/engine/providers/aws/InfrastructureBuilder.py:250-286 | an input document that a component uses ends with the image preserved for its request, any other as it was |
| ImageRequests.BuildsExactly | cli/engine/providers/azure/InfrastructureBuilder.py:224-269 | when the files do not depend on other input documents, a build succeeds exactly when every enabled component's machine is in the input or the files, the provider has the cluster's image and the manifest, if any, has a machine |
| ImageRequests.UnsupportedFails | cli/engine/providers/azure/InfrastructureBuilder.py:234-240 | with a cluster-wide image that the provider does not have every build that needs a machine fails |
| ImageRequests.BuiltNames | cli/engine/providers/azure/InfrastructureBuilder.py:42-124 | the documents built are, in order, one for each enabled component on AWS and one for each of its machines on Azure, named as the component says |
| OsImageBuilder.KeepImage | cli/engine/providers/aws/InfrastructureBuilder.py:269-286 | the document keeps or takes over the preserved image in place |
| OsImageBuilder.GetVirtualMachine | cli/engine/providers/aws/InfrastructureBuilder.py:250-286 | the selected input document is updated in place, a missing one made anew, the input documents end as the function says, and the machine has the image preserved for the cluster's request, or its document's where there is none |
| OsImageBuilder.Run | cli/engine/providers/aws/InfrastructureBuilder.py:56-108 | the loop over the components builds the machine documents, each with the image preserved for its request, and leaves the input documents as the function says |
| ApplyEngine.Engine.AssertNoMasterDownscale | cli/engine/ApplyEngine.py:100-123 | the guard stops the apply exactly when a cluster of several machines would have fewer masters than its inventory |
| ApplyEngine.Engine.AssertNoPostgresChange | cli/engine/ApplyEngine.py:125-144 | the guard stops the apply exactly when the number of postgresql hosts would change |
| ApplyEngine.Engine.AssertOneFamily | cli/engine/ApplyEngine.py:146-161 | comparing with the first machine decides whether any two differ in their system family |
| ApplyGuards.MastersRefusedExactly | cli/engine/ApplyEngine.py:100-123 | an apply is turned down for its masters exactly when the cluster is not a single machine, has the master component and its group is in the inventory with more hosts than that one asks for |
| ApplyGuards.MastersMayGrow | cli/engine/ApplyEngine.py:119-123 | so asking for at least as many masters as there are is never turned down for it |
| ApplyGuards.PostgresRefusedExactly | cli/engine/ApplyEngine.py:125-144 | past that guard it is turned down for postgresql exactly when group and component are there and their sizes differ |
| ApplyGuards.MixedRefusedExactly | cli/engine/ApplyEngine.py:146-161 | past both guards it is stopped for its systems exactly when two of the machines built are of different families |
| ApplyGuards.CompletesExactly | cli/engine/ApplyEngine.py:163-209 | it completes exactly when no check stops it and machines, configuration and, if asked for, inventory can be made |
| ApplyGuards.RolesStayDifferent | cli/engine/ApplyEngine.py:163-209 | applies keep the roles of the inventory different, as these statements ask |
| ApplyEngine.Engine.Apply | cli/engine/ApplyEngine.py:163-209 | one apply leaves manifest and inventory as the step function says, in the order in which it checks, saves and fails |
| ApplyRuns.ImagesNeverGrow | cli/engine/ApplyEngine.py:163-201 | over any sequence of applies that complete or are turned down, the set of images in the manifest never grows |
| ApplyRuns.SingleImageStays | cli/engine/ApplyEngine.py:163-201 | a cluster with one image keeps it whatever later inputs ask |
| ApplyRuns.MachineKeepsImage | cli/engine/ApplyEngine.py:72-75 | in a completed apply every machine of the manifest, from the input or from the provider's files, keeps its image exactly unless it asks for the first machine's other one |
| ApplyRuns.MachineKeepsImageExactly | cli/engine/ApplyEngine.py:72-75 | the same with the image asked for spelt out, when the files do not depend on other input documents |
| ApplyRuns.FirstApplyImage | cli/engine/ApplyEngine.py:163-201 | after a first apply of a cluster with a cluster-wide image every machine of the manifest has that image |
| ApplyRuns.OwnOrFirstOverRuns | cli/engine/ApplyEngine.py:163-201 | over any such sequence of applies a machine that stays has the image it had, or one that the first machine had in between |
| ApplyRuns.NoMachinesNoApply | cli/engine/ApplyEngine.py:72-75 | after an apply without machines every apply that needs one is turned down and changes nothing |
| ApplyRuns.InterruptedExactly | cli/engine/ApplyEngine.py:176-201 | an apply interrupted after the early save keeps to the images of the manifest exactly when every machine document of the input that no component uses has one of them |
| ApplyRuns.ImagesNeverGrowInterrupted | cli/engine/ApplyEngine.py:163-201 | over any applies at all, interrupted ones included, the images never grow if no input has stray machine documents |
| ApplyRuns.InterruptedGrows | cli/engine/ApplyEngine.py:176-201 | an input with a stray machine document whose interrupted apply adds an image |
| ApplyGroups.OwnGroup | cli/engine/ansible/AnsibleInventoryCreator.py:31-43 | a role that no other enabled component feeds has exactly the hosts its own component asks for |
| ApplyGroups.GroupAtLeast | cli/engine/ansible/AnsibleInventoryCreator.py:31-43 | a role fed by its own enabled component has at least the hosts that one asks for, and no more exactly when other components bring only hosts it has |
| ApplyGroups.MastersNeverShrink | cli/engine/ApplyEngine.py:100-123 | over any applies at all, interrupted ones included, the group of masters never shrinks as long as the cluster is one of several machines and its master component, while enabled, gets as many hosts as it asks for, which the feature mapping puts there; other components may feed the group too |
| ApplyGroups.PostgresStepExactly | cli/engine/ApplyEngine.py:125-144 | an apply that passes the guard and writes the inventory keeps the size of the postgresql group exactly when no other enabled component brings it a host of its own |
| ApplyGroups.PostgresKeepsSize | cli/engine/ApplyEngine.py:125-144 | over any applies at all, once in the inventory the postgresql group keeps its size as long as the component gets as many hosts as it asks for, which the feature mapping puts there, and no other enabled one brings the group hosts of its own |
| ApplyGroups.ShippedFedByOwn | schema/common/defaults/configuration/feature-mapping.yml:61-150 | with the default feature mapping, and neither single_machine nor custom enabled, both guarded roles are fed by their own components alone |
| ApplyGroups.ShippedStaffed | schema/common/defaults/configuration/feature-mapping.yml:61-150 | then the run theorems ask only that the guarded component gets as many different hosts as it asks for |
| ApplyGroups.CustomGrows | cli/engine/ApplyEngine.py:125-144 | with the default mapping, enabling the custom component adds its host to the postgresql group past the guard |
| ConfigurationAppender.EveryFeatureCovered | cli/engine/schema/ConfigurationAppender.py:33-49 | every mapped feature of an enabled component has an output document of its kind and the component's selector, the input's own if there is one |
| ConfigurationAppender.OutputRight | cli/engine/schema/ConfigurationAppender.py:24-49 | each output document is the first input document of its kind and name, or made because there is none, and then made only once |
| ConfigurationAppender.RequiredOnce | cli/engine/schema/ConfigurationAppender.py:24-31 | exactly one cluster document comes out, and exactly one feature mapping unless a mapped feature has that name |
| ConfigurationAppender.AppendSucceeds | cli/engine/schema/ConfigurationAppender.py:33-49 | the step succeeds exactly when every enabled component is mapped and every document it maps to can be had |
| ConfigurationListing.OutputListed | cli/engine/schema/ConfigurationAppender.py:33-49 | behind the required documents the output is, in the order of components and features, an entry every time the input has the document needed, and otherwise one for the first need that nothing else meets; nothing else is in it |
| ConfigurationListing.RequiredFirst | cli/engine/schema/ConfigurationAppender.py:24-31 | the required documents come first, each the first of its kind in the input or else the default one |
| AppenderRun.Appender.AppendFeature | cli/engine/schema/ConfigurationAppender.py:39-49 | one feature appends the input's object, nothing, or a new object with its version set |
| AppenderRun.Appender.Run | cli/engine/schema/ConfigurationAppender.py:17-51 | the nested loops give an object per entry, shared with the input where the input has it and new otherwise, all with the version set; no other input document gets it |
| ConfiguredInventory.InventoryCanBeMade | cli/engine/ansible/AnsibleInventoryCreator.py:45-47 | after a successful configuration step the inventory finds one feature mapping and every component with hosts in it |
| Inventory.GroupDuplicated | cli/engine/ansible/AnsibleInventoryCreator.py:61-72 | the dictionary filled host by host is the grouping: roles in the order of their first host, hosts in the order first seen, by object identity |
| Inventory.GetInventory | cli/engine/ansible/AnsibleInventoryCreator.py:31-43 | the loop over components lists and groups their hosts, or reports a missing mapping |
| Inventory.DistinctInOrder | cli/engine/ansible/AnsibleInventoryCreator.py:64-67 | a group lists each host at its first occurrence, in order |
| Inventory.RolesInOrder | cli/engine/ansible/AnsibleInventoryCreator.py:63-71 | each role appears once, in the order in which roles first had a host |
| Inventory.GroupedLists | cli/engine/ansible/AnsibleInventoryCreator.py:61-72 | grouping neither loses nor adds a host under a role |
| Inventory.GroupedIsCanonical | cli/engine/ansible/AnsibleInventoryCreator.py:61-72 | after grouping no role repeats, none is without hosts, and no host repeats under a role |
| Inventory.RegroupingChangesNothing | cli/engine/ansible/AnsibleInventoryCreator.py:61-72 | grouping a grouped inventory is the identity |
| Inventory.InventoryLists | cli/engine/ansible/AnsibleInventoryCreator.py:31-72 | a host is listed under a role exactly when an enabled component has it and maps to a feature of the role |
| InventoryOrder.CollectedInOrder | cli/engine/ansible/AnsibleInventoryCreator.py:31-41 | the list before grouping goes through enabled components with hosts and their features in order, each once, and leaves none out |
| InventoryOrder.InventoryInOrder | cli/engine/ansible/AnsibleInventoryCreator.py:31-72 | the groups of the inventory are in the order in which components and features first bring their role |
| InventoryOrder.HostsInOrder | cli/engine/ansible/AnsibleInventoryCreator.py:61-72 | the hosts of a group are in the order in which those components first bring them |
| Inventory.CollectedSucceeds | cli/engine/ansible/AnsibleInventoryCreator.py:33-47 | the listing succeeds exactly when the components with hosts are mapped by the only mapping there is |
| InventoryText.LinesOfConcat | tests/spec/Rakefile:34-35 | reading a text line by line undoes writing it line by line |
| InventoryText.ReadInventory | tests/spec/Rakefile:29-55 | the loop with its current group fills the three hashes as the fold over the lines does |
| InventoryScan.ReadExactly | tests/spec/Rakefile:29-55 | on any lines the hash of a heading, and that of no heading, gives an address the name on the last line that has it there, and the hash of all hosts the name on the first line that has it; nothing else is in them |
| InventoryScan.FirstQuadExactly | tests/spec/Rakefile:43-44 | the address read off a line is the first one in it, as long as it goes, and one is found if there is any |
| InventoryScan.QuadExactly | tests/spec/Rakefile:43-43 | an address is four groups of one to three digits with dots between them |
| InventoryScan.HeadingExactly | tests/spec/Rakefile:41-42 | a heading is a name between the bracket that starts the line and the next closing bracket |
| InventoryScan.FirstWordExactly | tests/spec/Rakefile:45-45 | the name is the first word: it starts behind the leading space and ends before the next space |
| InventoryScan.BeforeExactly | tests/spec/Rakefile:37-39 | what is read of a line is all before the first comment sign |
| InventoryReading.HostStep | tests/spec/Rakefile:43-52 | a printed host line is read as its address and name and goes to the current group |
| InventoryReading.HeadingStep | tests/spec/Rakefile:41-42 | a printed heading sets the current group |
| InventoryReading.ItemsTextLines | ansible/inventory.j2:8-13 | the printed items are their headings and host lines, one per line |
| InventoryRoundTrip.RenderedLines | ansible/inventory.j2:1-24 | a printed inventory splits into the fixed lines before, the items' lines and the fixed lines after |
| InventoryRoundTrip.ReadBack | tests/spec/Rakefile:34-55 | reading a printed inventory recovers every role with the address and name of each of its hosts and nothing else, and the hash of all hosts has each address with its first name |
| InventoryCount.RowsOfItem | tests/spec/spec/spec_helper.rb:48-49 | the text cut out for a role is the lines of its own hosts |
| InventoryCount.CountIsRight | tests/spec/spec/spec_helper.rb:44-54 | the count for a role is the number of its hosts |
| InventoryCount.ListInventoryHosts | tests/spec/spec/spec_helper.rb:91-104 | the loop lists the first word of every line with an address |
| InventoryCount.ListIsRight | tests/spec/spec/spec_helper.rb:91-104 | the list for a role is the names of its hosts in order |
| ParentPaths.GetParentPaths | ansible/playbooks/filter_plugins/path.py:17-23 | the loop collects the parents that are not excluded, bottom-up |
| ParentPaths.EndsExactly | ansible/playbooks/filter_plugins/path.py:19-20 | taking parents reaches the root exactly from paths that start with one slash |
| ParentPaths.ParentsAreAncestors | ansible/playbooks/filter_plugins/path.py:19-22 | the parents are precisely the root and the prefixes that end before a run of slashes |
| ParentPaths.ParentPathsExactly | ansible/playbooks/filter_plugins/path.py:17-23 | the result is precisely the proper ancestors not excluded, each a strict prefix of the one before |

## Left out

- DefaultMerger.Merger.Run: keeps documents as values with identities rather than as heap objects, so that sharing between input documents and results can be stated; the merge in place on heap objects is proved for documents without shared objects (`HeapMerge.MergeObjdict`). What a merge that fails has written by then is not stated.
- LayerFold.MergeParentIsFold: is about layering on values, which the loop computes under the condition of `SharedLayering.RunIsLayering`.
- ConfigMerger.MergeWithDefaults: works on values; the made document shares objects with the user's 'default' document in the same way as in the loop, and what a later call sees of that is not modelled.
- SharedExactly.SafeExactly: heads are strings that spell no boolean, and all files loaded for a kind are of that kind, as in the schema directory but for the minimal cluster configurations.
- Layering.ReturnsExactlyOnAcyclicChains: the recursion is cut off by a number of parents; the lemma shows that the number of files is always enough unless the recursion never ends.
- AzurePlan.Run: documents are values, since none changes after it has joined the list; the operating system named in the cloud-init document is left out.
- ApplyGroups.MastersNeverShrink: hosts of one group count as different when they are different objects; an inventory read back from its file merges hosts of equal names.
- InventoryCount.CountIsRight: a heading with nothing behind it, on which the Ruby code fails, does not occur in a printed inventory and is not modelled.
- InventoryRoundTrip.ReadBack: the order of hosts in the Ruby hashes is not stated; `InventoryCount.ListIsRight` states it for the list.
- Applies interrupted after the early save, other than what they do to the images.
- The constructors' check that the input has exactly one cluster document.
- YAML and JSON files, schema validation, logging, and the Jinja templates other than the inventory's.
- boto3, the Azure command line, Terraform and Ansible; addresses and image identifiers are parameters.
- The gcp builder, which repeats the AWS one, and the builder for machines that exist already.
- remove_value, the conversions between dictionaries and ObjDict, storage_account_name and the other small helpers.
- Python's equality of numbers and booleans of different types (`1 == True`) for names of list items.
- Tags, disks, sizes and other fields of infrastructure documents that the algorithms only copy.
- listInventoryIPs and the other scanners of spec_helper.rb, and the Rakefile after its reading loop.
