# OpenDepot: a verified model of its hard parts

A Dafny model of the parts of OpenDepot where a mistake is hard to see by reading one function, with
proofs of what those parts are for. `dafny verify dfyconfig.toml` checks everything.

**Output type inference** (`CtyTypes`, `Builtins`, `Inference`, `InferencePass`, `InferenceLaws`,
`InferenceLimits`, `CtyValues`, `Evaluation`, `InferenceSoundness`, `InferencePrecision`). `InferencePass.Pass` is the inference object with its mutable `for` scope, memo table
and in-flight set; each of its methods is proved equal to `Inference.Run`, a function that threads the
same state. `Inference.Meaning` is an independent reference: types under lexical scoping, given the types
of the locals, with no cache and no cycle cut. The central theorem says that the two agree on acyclic
modules without iterator capture, whatever was memoised before, so that the order of the outputs does not
matter. Two modules are constructed in which one of the two conditions fails and the order does matter. The
order in which Go visits an object's attributes is a parameter. `CtyValues` says which values have a type, and
`Evaluation` which values an expression yields, both without reference to the type rules; what the syntax tree
leaves out, such as conditions and filters, may be anything. Inference is proved sound for evaluation, and exact when
the inputs are known and alternatives are equal. Soundness needs merges that lose no value and some functions to be
used as their rule assumes; the conditions are predicates on inferred types, and values outside them are given.

**Provider schemas** (`ProviderSchema`). Typing `r.p` by stepping through the schema and typing `r` as one object and
walking its type agree exactly under a condition on schema and path, and references get the types that the schema
declares.

**The Assembly compiler** (`AssemblyTypes`, `HclTokens`, `TypePrinter`, `ValuePrinter`, `References`, `ModuleInputs`,
`HclExpressions`, `HclReading`, `ProviderConfig`, `ReferenceMeaning`, `InputMeaning`, `AssemblyBuild`, `AssemblyLaws`,
`AssemblyMeaning`, `AssemblyRender`, `AssemblyOutput`, `AssemblyWriting`, `ValueMeaning`, `AssemblyFiles`). Emitted expressions are syntax trees whose
leaves are text a user typed. `HclExpressions` writes them as tokens, piece by piece, and reads tokens by the HCL grammar;
reading what was written is proved to give the tree back, or to fail, according to an exact condition, so that what
follows a splat belongs to the splat because the grammar says so. `BuildModel` reports no diagnostic exactly for clean
requests, and then the model is closed and, with two exceptions given exactly below, *means* what the canvas means: for
every assignment of values to canvas nodes, each emitted expression, evaluated by name, has the value that the canvas
reference has by node, and so has what its text reads as. Written types and defaults read back and say what the canvas
says, and the blocks of the files are those of its nodes. The written files do not depend on the order of the nodes, and
it is known exactly which clean requests can be written. What the HCL library decides about text that a user typed
(`Library`) is a parameter: whether it is valid, which expression is kept of it, whether it stands alone between other
text, whether it is a conditional or ends in a comment, and whether its first word is `for`. How the library reads
composed text (`Reader`) is used only where typed text stands by itself, or where all typed parts stand alone and the
grammar decides.

**Bounded command output** (`BoundedOutput`). UTF-8 decoding, line splitting and the byte limits of the
streaming writer; characters are exactly the encodings of code points, and how the input is cut into writes leaves no
trace if and only if no character is cut.

**Ordering and aggregation** (`VersionOrder`, `VersionMeaning`, `DownloadStats`). The hand-written version comparator is
a strict weak order on all strings, and which version is newer is read off the text where two versions first differ.
The download counts are conserved between three ways of computing them.

**Control loops** (`Reconcilers`, `ControlLoops`). `ControlLoops.Cluster` runs the Provider reconciler against an API
server where every call may fail and where, before every call, the Depot may rewrite the Provider and the Version
controller may record a file name. Every run converges to one store.

**Policy writes** (`ScanPolicies`). Read-then-write handlers over a compare-and-swap store, with other clients' writes
before and after the read.

**Optional attributes** (`OptionalAttributes`). Two walks over a type and its tree of defaults that have to agree.

`Basics`, `Strings` and `Sorting` hold what the components share.

Where the code does less than one would expect, the model keeps the code's behaviour and the exact condition
is proved: merging alternatives is not associative (`CtyTypes.OrderIndependentIff`) and can lose values
(`CtyValues.MergeSoundIff`), so that `["a", 1, true][0]` is inferred to be a bool (`InferenceSoundness.MixedTupleErrs`);
the keys of a set are its elements and not strings (`CtyValues.KeySoundIff`); chunks, unions, grouped results, resources
with `for_each` and `merge` over null are not what their rules say (`InferenceSoundness.ChunksErr`, `UnionErrs`,
`GroupingErrs`, `KeyedInstancesErr`, `NullArgumentErrs`); selecting one element of an output of
all counted instances emits `module.m[*].out[i]`, which indexes the output of every instance
(`ReferenceMeaning.MeaningKeptIff`); ` ? 1 : 0` after a typed conditional belongs to its last alternative, and after a
comment to the comment (`AssemblyMeaning.CountKeptIff`); the two schema views differ through nested blocks (`ProviderSchema.ViewsAgreeIff`);
what has the word `for` right after a bracket or brace, a heredoc with more text after it, and text over known names that
takes several lines are accepted and cannot be written (`TypePrinter.TypeRoundTrip`,
`AssemblyWriting.CleanRequestIsWrittenIff`); a module input called `source` or `version` takes the place of the module's own attribute (`AssemblyOutput.IdentityKeptIff`), as a provider argument called `alias` does
(`AssemblyOutput.ProviderAttributes`); stale Versions are removed only when the configured name is the name
of the Provider resource (`Reconcilers.StaleAreRemovedIff`); a token that was not issued before the
request can hit an object the handler never checked (`ScanPolicies.WriteHitsReadObjectIff`).

## Model

| member | source | states |
|---|---|---|
| CtyTypes.UnifyTypes | pkg/hclschema/infer.go:508-519 | the accumulating loop over alternatives computes the left fold of pairwise merging, and an unknown type for no alternatives |
| CtyTypes.UnifyAllIsAlternative | pkg/hclschema/infer.go:486-519 | merging never invents a type: the result is unknown or one of the alternatives |
| CtyTypes.UniformKeepsType | pkg/hclschema/infer.go:508-519 | alternatives that agree wherever they are known keep their common type |
| CtyTypes.OrderIndependentIff | pkg/hclschema/infer.go:508-519 | the fold gives the same type for every order of the alternatives if and only if the known ones are all equal, or pairwise different and even in number |
| CtyTypes.ElementIsComponent | pkg/hclschema/infer.go:522-533 | an element type is unknown or an immediate component of the collection, hence strictly smaller |
| CtyTypes.UniformElementType | pkg/hclschema/infer.go:522-557 | when the known components agree, every attribute order yields their common type |
| CtyTypes.ContainsDynamicIff | pkg/hclschema/infer.go:114-133 | the recursive test is true exactly when an unknown type occurs at some depth |
| CtyTypes.FlattenYieldsFlatList | pkg/hclschema/functions.go:228-244 | `flatten` has an unknown type or a list whose element is no list, set or tuple |
| CtyTypes.FlattenNested | pkg/hclschema/functions.go:228-244 | on any number of nested lists and sets around a known element that is not itself a sequence, `flatten` yields the list of that element |
| InferencePass.ReadNames | pkg/hclschema/infer.go:603-621 | a traversal gives a path exactly when every step is an attribute or a literal string index |
| InferencePass.WalkPath | pkg/hclschema/infer.go:466-483 | stepping through objects and maps one name at a time, unknown as soon as a step cannot be taken |
| InferencePass.FindInScope | pkg/hclschema/infer.go:424-432 | the binding found is the innermost one |
| InferencePass.FlattenElement | pkg/hclschema/functions.go:228-244 | the unwrapping loop ends, on every type, at the innermost element that is not a sequence |
| InferencePass.Pass.Infer | pkg/hclschema/infer.go:135-173 | terminates on every symbol table, cyclic locals included; leaves scope and in-flight set as found; the memo table only grows; type and memo table are those of the reference pass |
| InferencePass.Pass.InferTraversal | pkg/hclschema/infer.go:187-234 | dispatch on the root name: iterators first, then variables, locals, modules, data sources and resources |
| InferencePass.Pass.InferLocal | pkg/hclschema/infer.go:436-457 | a memoised type is returned, a local in flight is unknown, otherwise the body is inferred under the caller's scope and memoised |
| InferencePass.Pass.InferFor | pkg/hclschema/infer.go:391-421 | the body is inferred with the iterators bound, and the scope is restored |
| InferencePass.Pass.InferSplat | pkg/hclschema/infer.go:295-314 | a splat maps a path over the element type of a sequence |
| InferencePass.Pass.InferIndex | pkg/hclschema/infer.go:317-335 | an index yields the element type of the collection |
| InferencePass.Pass.InferTuple | pkg/hclschema/infer.go:338-351 | elements are inferred from left to right with one memo table |
| InferencePass.Pass.InferObject | pkg/hclschema/infer.go:355-387 | static keys give an object, a later key replacing an earlier one; any other key gives a map of the merged value types |
| InferencePass.Pass.InferConditional | pkg/hclschema/infer.go:154-155 | both branches are inferred in order and merged |
| InferencePass.Pass.InferFunctionCall | pkg/hclschema/functions.go:130-171 | every known function gets the type its rule says, and no operand is inferred that the rule ignores |
| InferencePass.Pass.UnifyArguments | pkg/hclschema/functions.go:174-185 | the loop over arguments merges their types from left to right |
| InferencePass.Pass.InferConcat | pkg/hclschema/functions.go:203-225 | `concat` is the list of the merged element types |
| InferencePass.Pass.InferMerge | pkg/hclschema/functions.go:285-321 | `merge` of objects is one object with later attributes replacing earlier ones, otherwise a map of the merged element types |
| InferencePass.InferOutputs | pkg/hclschema/infer.go:58-96 | one pass classifies every output in the given order with a shared memo table |
| InferenceLaws.CacheOnlyGrows | pkg/hclschema/infer.go:436-457 | inference never rewrites or drops a memoised type and memoises only locals that were not in flight |
| InferenceLaws.MeaningIsLexical | pkg/hclschema/infer.go:391-457 | an expression none of whose free roots is captured means the same under every surrounding scope |
| InferenceLaws.MemoisedMeaning | pkg/hclschema/infer.go:135-173 | at every point of a pass over an acyclic, capture-free module, type and memo table agree with the lexical reference |
| InferenceLaws.UniqueSolution | pkg/hclschema/infer.go:436-457 | the equations of acyclic locals have exactly one solution |
| InferenceLaws.InferenceIsLexical | pkg/hclschema/infer.go:187-234 | whatever coherent types were memoised before, inference yields the cache-free lexical meaning and leaves only such types memoised |
| InferenceLaws.OutputsAreLexical | pkg/hclschema/infer.go:58-96 | every output gets the type and confidence of its lexical meaning |
| InferenceLaws.OutputOrderIrrelevant | pkg/hclschema/infer.go:58-96 | visiting the outputs in another order gives the same types and confidences |
| InferenceLimits.CaptureBreaksOrder | pkg/hclschema/infer.go:391-457 | for every lawful attribute order: an acyclic module in which an iterator captures a root of a local, and whose outputs depend on the visiting order |
| InferenceLimits.CycleBreaksOrder | pkg/hclschema/infer.go:436-457 | for every lawful attribute order: a capture-free module whose locals form a cycle, and whose outputs depend on the visiting order |
| CtyValues.RefinesIff | pkg/hclschema/infer.go:486-519 | read off two types, one refines the other if and only if every value of the one is a value of the other |
| CtyValues.MergeSoundIff | pkg/hclschema/infer.go:486-519 | merging loses no value of any alternative if and only if each alternative refines the merged type |
| CtyValues.MergeLosesValues | pkg/hclschema/infer.go:486-519 | string, number and bool merge to bool, and string and unknown to string, and both merges lose values |
| CtyValues.MemberHasElementType | pkg/hclschema/infer.go:522-533 | where components merge without loss, every element of a value has the element type of its type |
| CtyValues.KeySoundIff | pkg/hclschema/infer.go:537-546 | the key type is that of the keys of every value of the collection type if and only if it is no set of something else than strings |
| InferenceSoundness.YieldsHasType | pkg/hclschema/infer.go:136-483 | where inference is safe, every value that an expression yields has the type that it means, under any scope whose iterators have values of their types |
| InferenceSoundness.RunIsSound | pkg/hclschema/infer.go:136-457 | type soundness of the pass at every point, whatever was memoised before: an expression yields only values of the type inferred for it, if variables and resources have values of their types and locals what their definitions yield |
| InferenceSoundness.OutputsAreSound | pkg/hclschema/infer.go:58-98 | the value of an output has the type reported for it, in whatever order outputs are visited |
| InferenceSoundness.CallSound | pkg/hclschema/functions.go:130-337 | what the built-in functions return has the type of their rule, where arguments are as the rule assumes |
| InferenceSoundness.ForOverValues | pkg/hclschema/infer.go:391-421 | the value iterator over a list, set or map of a known type makes a list of that type |
| InferenceSoundness.ForOverKeys | pkg/hclschema/infer.go:391-421 | the key iterator makes a list of numbers over lists and tuples, and of strings over maps, objects and sets |
| InferenceSoundness.MixedTupleErrs | pkg/hclschema/infer.go:317-335 | an element of a tuple of a string, a number and a bool is inferred to be a bool and yields the string |
| InferenceSoundness.SetKeysErr | pkg/hclschema/infer.go:537-546 | the keys of a set of numbers are inferred to be strings and are the numbers |
| InferenceSoundness.ChunksErr | pkg/hclschema/functions.go:247-259 | chunks of a list of numbers are lists, and are typed as numbers |
| InferenceSoundness.UnionErrs | pkg/hclschema/functions.go:203-225 | a union is a set, and is typed as a list |
| InferenceSoundness.GroupingErrs | pkg/hclschema/infer.go:391-421 | grouped results are lists, and are typed as single results |
| InferenceSoundness.KeyedInstancesErr | pkg/hclschema/infer.go:238-254 | the instances of a resource with `for_each` are a map, and are typed as a list |
| InferenceSoundness.NullArgumentErrs | pkg/hclschema/functions.go:285-321 | an object merged from a null and another object lacks the attributes of the null |
| InferencePrecision.DeterminedIsConcrete | pkg/hclschema/infer.go:136-483 | an expression over known types that are merged only where they are equal means a type without unknown parts |
| InferencePrecision.DeterminedIsExact | pkg/hclschema/infer.go:58-110 | such an output is reported with the confidence exact |
| ProviderSchema.WalkSteps | pkg/hclschema/providerschema/reduce.go:269-286 | the loop over the remaining steps walks objects and maps only |
| ProviderSchema.Lookup | pkg/hclschema/providerschema/reduce.go:173-209 | the loop over a dotted path prefers attributes to blocks and descends through nested blocks |
| ProviderSchema.LookupIsObjectPath | pkg/hclschema/providerschema/reduce.go:173-286 | with disjoint names and no sequence stepped through, looking up a path equals walking the whole-object type |
| ProviderSchema.SequenceStepIsUnknown | pkg/hclschema/providerschema/reduce.go:173-286 | through a list or set block the whole-object view is unknown, and the lookup is known if and only if the rest of the path names something of known type in the block, or in an attribute that hides it |
| ProviderSchema.ViewsAgreeIff | pkg/hclschema/providerschema/reduce.go:173-286 | for every schema and path the two views agree if and only if no list or set block is stepped through to a known name; under a map block, a step that is no declared name is followed by nothing known, and one that is leads with the rest, as the rest does without it, to nothing known or to the same declared type; and a name that is attribute and block leads in both to nothing known or to the same declared type |
| ProviderSchema.ListViewsDiffer | pkg/hclschema/providerschema/reduce.go:173-286 | a list block with a string attribute, which the lookup finds and the object view does not |
| ProviderSchema.MapViewsDiffer | pkg/hclschema/providerschema/reduce.go:173-286 | a map block with a string attribute, which the object view finds behind a key and the lookup does not |
| ProviderSchema.ReferenceIsObjectPath | pkg/hclschema/infer.go:238-279 | for a resource that is not repeated, the type of `r.p` is path `p` applied to the type of `r` |
| ProviderSchema.SplatExpressionIsReference | pkg/hclschema/infer.go:238-314 | for a repeated resource the expressions `r[*].p` and `r.p` are inferred to the same type |
| ProviderSchema.ResourceIsDeclared | pkg/hclschema/infer.go:238-279 | `type.name.attr` is inferred to have the type that the resource table declares for the attribute, or for a nested block the list, set, map or object that its nesting says |
| ProviderSchema.DataSourceIsDeclared | pkg/hclschema/infer.go:223-279 | `data.type.name.attr` likewise, from the table of data sources |
| HclTokens.ParsePrinted | pkg/hclschema/assemblyexport/build.go:756-832 | reading printed syntax consumes exactly that text and gives the tree back if the tree is readable and can have the following text after it, and fails otherwise, in front of anything that does not turn its end into a call |
| HclTokens.ReadPrinted | pkg/hclschema/assemblyexport/build.go:825-832 | printed syntax reads back as itself if and only if no bracket or brace is followed by the word `for`, typed or printed, and no heredoc by more text on its last line |
| ValuePrinter.RenderValue | pkg/hclschema/assemblyexport/build.go:843-964 | the recursive printer, with its sorted copies and `seen` maps, computes the reference text or refuses |
| ValuePrinter.AcceptsIffConforms | pkg/hclschema/assemblyexport/build.go:843-964 | a value is accepted if and only if it conforms: kinds, exact tuple arity, unique keys, declared names, all required attributes, at every depth |
| ValuePrinter.AcceptedIsCanonical | pkg/hclschema/assemblyexport/build.go:894-960 | accepted maps and objects are written in strictly ascending key order at every depth |
| ValuePrinter.ValueReadableIff | pkg/hclschema/assemblyexport/build.go:843-964 | the text of an accepted value reads back if and only if, at every depth, no object has `for` as its least name, no list or tuple has a number, bool or any scalar beginning with the word `for` as its first item, and none has an item that ends in a heredoc |
| TypePrinter.RenderTypeSpec | pkg/hclschema/assemblyexport/build.go:756-823 | the printer with its nested print-and-reparse computes the reference text or refuses |
| TypePrinter.TypeAcceptedIff | pkg/hclschema/assemblyexport/build.go:756-832 | a type is printed if and only if every kind is known, elements are given, attribute names are identifiers, defaults conform, and no inner type is misread |
| TypePrinter.TextDenotes | pkg/hclschema/assemblyexport/build.go:756-832 | the printed syntax of a type without attribute defaults denotes the same type up to attribute order |
| TypePrinter.ReadableIff | pkg/hclschema/assemblyexport/build.go:785-817 | the text of a type is readable if and only if `for` is not its least attribute name and no attribute default is misread or ends in a heredoc |
| TypePrinter.TypeRoundTrip | pkg/hclschema/assemblyexport/build.go:756-832 | printing and reading gives the tree back exactly in the readable case, and without attribute defaults it is the same type up to attribute order |
| TypePrinter.NestedForIsRefused | pkg/hclschema/assemblyexport/build.go:825-832 | inside another type an unreadable type is refused instead |
| ValueMeaning.ValueDenotes | pkg/hclschema/assemblyexport/build.go:843-964 | the text of every accepted value denotes the value at every depth: blank strings are null and other strings themselves, typed scalars the expression in their text, items keep their order, entries are the same finite map |
| ValueMeaning.MeansOne | pkg/hclschema/assemblyexport/build.go:843-964 | a value means exactly one thing at its type |
| ValueMeaning.TypeIsSaid | pkg/hclschema/assemblyexport/build.go:756-823 | the text of every accepted type says its kinds, attributes and optional marks, and with what each attribute default means, at every depth |
| References.ResolvedIsClosed | pkg/hclschema/assemblyexport/build.go:649-754 | a resolved field names only variables and modules of the request |
| References.ResolvesIff | pkg/hclschema/assemblyexport/build.go:649-754 | a field resolves if and only if it and every index and key it uses, at any depth, fits: existing target, output given, selector matching the target's multiplicity |
| ReferenceMeaning.NamesRepresent | pkg/hclschema/assemblyexport/build.go:43-133 | names identify nodes for every assignment of values if and only if no two nodes of a kind share a name |
| ReferenceMeaning.ResolvedMeans | pkg/hclschema/assemblyexport/build.go:649-754 | the emitted expression, read by name, has the value of the canvas reference by node: one instance, all instances, by index, by key, with dotted outputs and output selectors, unless a splat takes the output selector for its own |
| ReferenceMeaning.MeaningKeptIff | pkg/hclschema/assemblyexport/build.go:649-754 | a field and all indexes and keys it uses keep their meaning for every assignment of values if and only if no reference at any depth selects one element of an output of all instances of a counted module |
| ReferenceMeaning.AbsorbedLosesMeaning | pkg/hclschema/assemblyexport/build.go:690-753 | every such reference loses its meaning for some assignment of values |
| ReferenceMeaning.IndexIsAbsorbed | pkg/hclschema/assemblyexport/build.go:690-753 | with one instance and the output [1, 2], `[*].output[0]` is [1] where the canvas means [1, 2] |
| ModuleInputs.RenderInputValue | pkg/hclschema/assemblyexport/build.go:405-444 | the recursive loops over items and entries compute the reference expression or refuse at the first part that is refused |
| ModuleInputs.InputAcceptedIff | pkg/hclschema/assemblyexport/build.go:296-524 | an input is accepted if and only if every scalar fits the type of its place and every key can be written, at every depth |
| ModuleInputs.InputIsClosed | pkg/hclschema/assemblyexport/build.go:296-444 | a module input names only nodes of the request, at every depth |
| HclReading.ReadWritten | pkg/hclschema/assemblyexport/build.go:405-754 | the text of an expression, put together from pieces, reads as that expression if no list or object in it has the word `for` right after its bracket or brace, and does not read otherwise |
| HclReading.TextReads | pkg/hclschema/assemblyexport/build.go:649-661 | typed text that stands alone reads as one expression in front of anything that can follow an expression, a conditional as its three parts |
| HclReading.AttributeReads | pkg/hclschema/assemblyexport/build.go:665-708 | `.name` written after a reference is read as applied to what it follows, and after a splat to every element |
| HclReading.IndexReads | pkg/hclschema/assemblyexport/build.go:739-754 | `[index]` written after a reference is read as applied to what it follows, and after a splat to every element |
| HclReading.SuffixReads | pkg/hclschema/assemblyexport/build.go:240-252 | ` ? 1 : 0` written after a condition is read as its alternatives, after a typed conditional as those of its last alternative, and after a comment not at all |
| HclReading.ReadingKeepsValue | pkg/hclschema/assemblyexport/build.go:405-754 | what the text of an expression reads as has the value of the expression |
| InputMeaning.InputMeans | pkg/hclschema/assemblyexport/build.go:296-524 | a structured input whose references keep their meaning denotes the canvas value: text stands for itself exactly where the contract declares a string, at every depth |
| ProviderConfig.BuildProviderConfiguration | pkg/hclschema/assemblyexport/build.go:541-594 | no diagnostic if and only if required arguments are given, arguments are declared and resolve, blocks are declared and conform, and counts lie within bounds, at every depth |
| ProviderConfig.ConformingIsComplete | pkg/hclschema/assemblyexport/build.go:541-594 | the rendered tree then has the same arguments, resolved, and as many blocks of every name, at every depth |
| AssemblyBuild.IdentityIsLastTwo | pkg/hclschema/assemblyexport/build.go:970-977 | the identity of a source address is its last two segments, however many precede them |
| AssemblyBuild.NameKeysDiffer | pkg/hclschema/assemblyexport/build.go:46-133 | in the shared table of names, keys of different kinds never collide and keys of one kind collide only for equal names |
| AssemblyBuild.BuildVariables | pkg/hclschema/assemblyexport/build.go:49-105 | clean if and only if every variable has a valid name, a printable type, sound validations and a conforming default, and names are distinct |
| AssemblyBuild.NameModules | pkg/hclschema/assemblyexport/build.go:107-117 | clean if and only if module names are valid and distinct, whatever names other kinds of node use |
| AssemblyBuild.NameProviders | pkg/hclschema/assemblyexport/build.go:119-133 | clean if and only if local names and aliases are valid and configuration keys are distinct |
| AssemblyBuild.BuildProviders | pkg/hclschema/assemblyexport/build.go:139-172 | clean if and only if every document exists, matches and accepts the configuration, and configurations sharing a local name need the same provider and version |
| AssemblyBuild.BuildInputs | pkg/hclschema/assemblyexport/build.go:202-226 | clean if and only if every input is declared and has an expression at its declared type |
| AssemblyBuild.BuildMultiplicity | pkg/hclschema/assemblyexport/build.go:228-263 | which `count` and `for_each` are written, ` ? 1 : 0` being read as part of a typed conditional or comment it follows, and exactly when a multiplicity is accepted |
| AssemblyBuild.BuildBindings | pkg/hclschema/assemblyexport/build.go:265-289 | clean if and only if every binding is required by the contract and selects an available provider of the required identity, for every order of the map |
| AssemblyBuild.BuildModel | pkg/hclschema/assemblyexport/build.go:33-294 | no diagnostic if and only if the request is clean, and then the model is the node-by-node translation of the request |
| AssemblyLaws.CleanBuildIsClosed | pkg/hclschema/assemblyexport/build.go:33-294 | a build without diagnostics emits every node, has distinct names, mentions only emitted names, gives every required input, and serves every binding with an emitted provider block of the required identity |
| AssemblyLaws.CleanBuildKeepsIdentity | pkg/hclschema/assemblyexport/build.go:139-201 | what is emitted under a node's name is the module or provider, and the normalized version, that the node asks for |
| AssemblyMeaning.CleanNamesIdentify | pkg/hclschema/assemblyexport/build.go:49-133 | in a clean request no two nodes of a kind share a name |
| AssemblyMeaning.CleanBuildPreservesMeaning | pkg/hclschema/assemblyexport/build.go:33-294 | for every assignment of values to nodes, all inputs, counts, `for_each` and provider arguments of the root module have the values the canvas gives them, except where a splat, a typed conditional or a comment takes what is written after it |
| AssemblyMeaning.CountKeptIff | pkg/hclschema/assemblyexport/build.go:240-252 | a count keeps its meaning if and only if ` ? 1 : 0` is not written after text that is itself a conditional or that does not stand alone, as when it ends in a comment |
| AssemblyMeaning.RenderedConfigurationMeans | pkg/hclschema/assemblyexport/build.go:541-611 | the arguments of a conforming provider configuration, where their references keep their meaning, denote their canvas values at every depth |
| AssemblyLaws.ConfigurationsDistinctIff | pkg/hclschema/assemblyexport/build.go:127-131 | for valid names the joined key rejects exactly the requests in which a (local name, alias) pair repeats |
| Sorting.SortedKeys | pkg/hclschema/assemblyexport/render.go:341-349 | the keys of a map in ascending order, whatever order the map is iterated in |
| Sorting.SortForgetsOrder | pkg/hclschema/assemblyexport/render.go:188-195 | sorting elements with distinct keys gives one result for every listing of the same elements |
| Sorting.PairKeyOrder | pkg/hclschema/assemblyexport/render.go:189-195 | the two-level comparison of providers is one lexicographic order on pairs |
| AssemblyRender.RenderVariables | pkg/hclschema/assemblyexport/render.go:85-131 | the loop over sorted variables writes the blocks of the variables file, or refuses when an expression does not read |
| AssemblyRender.AppendRenderBlock | pkg/hclschema/assemblyexport/render.go:293-312 | arguments and nested blocks are appended in ascending order of their names, at every depth |
| AssemblyRender.WriteRequiredProviders | pkg/hclschema/assemblyexport/render.go:197-216 | the loop with its `seen` map writes one entry for the first provider of every local name |
| AssemblyRender.WriteModule | pkg/hclschema/assemblyexport/render.go:233-283 | the attributes of a module block in order, an attribute that is set twice being replaced in place |
| AssemblyRender.Render | pkg/hclschema/assemblyexport/render.go:67-83 | both files of a model; nothing when the registry host is blank or some expression does not read |
| AssemblyOutput.RequiredOnce | pkg/hclschema/assemblyexport/render.go:197-216 | every local name is listed once, with the requirement of a provider that uses it |
| AssemblyOutput.FirstSeenSufficesIff | pkg/hclschema/assemblyexport/render.go:197-216 | taking the first provider of every local name loses nothing if and only if providers sharing a name have one source and version |
| AssemblyOutput.RequiredProvidersLoseNothing | pkg/hclschema/assemblyexport/build.go:139-172 | after a build without diagnostics, with one upstream identity per provider, every entry has the source and version of every provider block using its name |
| AssemblyOutput.ModuleAttributes | pkg/hclschema/assemblyexport/render.go:233-283 | what every attribute of a module block ends up as, including inputs that replace the block's own attributes |
| AssemblyOutput.IdentityKeptIff | pkg/hclschema/assemblyexport/render.go:253-267 | a module block keeps its source and version if and only if no input is called `source` or `version` |
| AssemblyOutput.ProviderAttributes | pkg/hclschema/assemblyexport/render.go:218-228 | every argument is written, and the alias is kept if and only if no argument is called `alias` |
| AssemblyOutput.FilesDefineTheModel | pkg/hclschema/assemblyexport/render.go:85-291 | the files hold exactly one block per variable, provider configuration and module, in the order of their names |
| AssemblyOutput.CleanVariableReadsIff | pkg/hclschema/assemblyexport/render.go:133-155 | a variable without diagnostics can be written if and only if neither its type, the defaults in it included, nor its default is misread |
| AssemblyWriting.InputReads | pkg/hclschema/assemblyexport/build.go:405-444 | the expression for an input reads if and only if, at every depth, no object lists `for` first, no list has typed text beginning with the word `for` as its first item, and no text over known names is invalid where it is written |
| AssemblyWriting.ConfigurationReads | pkg/hclschema/assemblyexport/render.go:293-312 | a conforming provider configuration reads if and only if no argument at any depth is text over known names that is invalid where it is written |
| AssemblyWriting.CleanRequestIsWrittenIff | pkg/hclschema/assemblyexport/render.go:67-291 | a request without diagnostics, whose embedded text stands alone, can be written if and only if there is a registry host and no type, default, input or argument in it is misread |
| AssemblyWriting.WrittenReferenceMeans | pkg/hclschema/assemblyexport/build.go:649-754 | the text written for a reference reads, and by name has the value that the reference has by node |
| AssemblyWriting.WrittenInputMeans | pkg/hclschema/assemblyexport/build.go:405-444 | the text written for a structured input reads and has the canvas value, at every depth |
| AssemblyWriting.WrittenCountMeans | pkg/hclschema/assemblyexport/build.go:240-252 | the text of a condition followed by ` ? 1 : 0` reads and has the value of the count on the canvas |
| AssemblyFiles.VariablesAreWritten | pkg/hclschema/assemblyexport/render.go:85-168 | when the files of a clean request are written, every variable has a block under its name whose type and default read back and say the type and value of the canvas, with its description and every validation in order |
| AssemblyFiles.ModulesAreWritten | pkg/hclschema/assemblyexport/render.go:233-289 | every module has a block under its name with the source host/namespace/name/system and version unless an input has that name, all inputs, and every provider binding with the local name and alias of the node bound |
| AssemblyFiles.ProvidersAreWritten | pkg/hclschema/assemblyexport/render.go:218-228 | every provider configuration has a block under its local name with its alias and all arguments |
| AssemblyFiles.RequirementsAreWritten | pkg/hclschema/assemblyexport/render.go:197-216 | with one upstream address per provider, the requirement for a local name is the address and version of the document of every provider using it |
| AssemblyOutput.OutputIsCanonical | pkg/hclschema/assemblyexport/render.go:85-291 | permuting the nodes of a request with distinct node IDs changes neither whether it builds nor the files |
| BoundedOutput.BoundedCommandOutput.Write | services/server/assembly_execution.go:233-248 | the buffer keeps what fits, progress is fed at most the limit, and the reported length is that of the input |
| BoundedOutput.BoundedCommandOutput.WriteProgress | services/server/assembly_execution.go:270-303 | the per-character loop cuts lines at the line limit and reports them at newlines |
| BoundedOutput.BoundedCommandOutput.FlushProgress | services/server/assembly_execution.go:305-313 | a nonempty line without its trailing carriage returns is reported and the line starts anew |
| BoundedOutput.BoundedCommandOutput.Finish | services/server/assembly_execution.go:263-268 | a line in progress is reported |
| BoundedOutput.RunCommand | services/server/assembly_execution.go:192-231 | a whole run: any chunks, then finishing |
| BoundedOutput.DecodeDistributesIff | services/server/assembly_execution.go:281-302 | decoding distributes over a cut if and only if the cut is not inside a character |
| BoundedOutput.WriteTwice | services/server/assembly_execution.go:233-303 | two writes leave what one write of the concatenation leaves when no character is cut between them |
| BoundedOutput.ChunkingIrrelevantIff | services/server/assembly_execution.go:221-313 | for all bytes: a chunking leaves the buffer and reports the lines that one write of the whole output does, under every limit and line limit, if and only if it cuts no character |
| BoundedOutput.AsciiIsWhole | services/server/assembly_execution.go:281-302 | ASCII output consists of whole characters |
| BoundedOutput.EncodedIsCharacter | services/server/assembly_execution.go:281-302 | the UTF-8 encoding of every code point is recognised as one character, whatever follows it |
| BoundedOutput.CharacterIsEncoded | services/server/assembly_execution.go:281-302 | whatever is recognised as a character is the encoding of a code point |
| BoundedOutput.WholeChunks | services/server/assembly_execution.go:281-302 | chunks of whole characters, ASCII among them, cut no character, so every chunking of ASCII output is covered |
| BoundedOutput.DecodeAcrossCut | services/server/assembly_execution.go:281-302 | wherever a character is cut, more characters are reported than without the cut, and more bytes that no line loses |
| BoundedOutput.SplitCharacterMatters | services/server/assembly_execution.go:281-302 | a two-byte character that is cut is reported as two replacement characters |
| BoundedOutput.BufferIsPrefix | services/server/assembly_execution.go:233-248 | the buffer is always the first limit bytes of everything written, for all chunks |
| BoundedOutput.ReportsNonEmptyLines | services/server/assembly_execution.go:263-313 | after a run the reported lines are exactly the nonempty lines of the kept output, in order, each cut at the line limit |
| BoundedOutput.ReportedLines | services/server/assembly_execution.go:305-313 | one line is reported for every nonempty run, without a carriage return if it ends in one, and unchanged otherwise |
| BoundedOutput.RunsSplit | services/server/assembly_execution.go:281-302 | the reference lines contain no newline and joined with newlines give the text back |
| BoundedOutput.CutAtLimit | services/server/assembly_execution.go:281-302 | a line is cut at the first character that would start at or beyond the limit, and only then |
| BoundedOutput.ShownIsBounded | services/server/assembly_execution.go:281-302 | a reported line exceeds the line limit by less than one character, plus one marker |
| VersionOrder.SplitVersionParts | services/server/ui_browse.go:1526-1541 | the loop collects the nonempty pieces between separators |
| VersionOrder.PartsSplit | services/server/ui_browse.go:1526-1541 | splitting distributes over every separator |
| VersionOrder.PartsWhole | services/server/ui_browse.go:1526-1541 | a separator-free string is one part, and the empty string none |
| VersionOrder.CompareVersionDesc | services/server/ui_browse.go:1546-1585 | the loop with early returns computes the order on token keys |
| VersionOrder.StrictWeakOrder | services/server/ui_browse.go:1546-1585 | on all strings the comparison is irreflexive and transitive, and ties are transitive |
| VersionOrder.TieIff | services/server/ui_browse.go:1546-1585 | two versions tie if and only if their tokens compare equal one by one |
| VersionMeaning.LargerIff | services/server/ui_browse.go:1556-1567 | digits compared without leading zeros by length and then by dictionary are compared as numbers |
| VersionMeaning.NumberIff | services/server/ui_browse.go:1556-1557 | a token is compared as a number if and only if it is digits that fit 64 bits |
| VersionMeaning.FirstDifferenceDecides | services/server/ui_browse.go:1546-1585 | after a common beginning, whatever follows, the version whose token is newer is newer and not the other: the larger number, a number before text, and of two texts the later in lower case |
| VersionMeaning.LongerIsNewer | services/server/ui_browse.go:1551-1555 | a version with further tokens is newer than its beginning |
| VersionMeaning.LeadingV | services/server/ui_browse.go:1547-1548 | one leading `v` makes no difference |
| VersionOrder.ResolveLatestModuleVersion | services/server/ui_browse.go:945-959 | the recorded version if there is one, else a version that no other beats |
| VersionOrder.FindProviderSourceScan | services/server/ui_browse.go:1272-1297 | the first scanned version that was asked for, or else a scanned version that no other beats; nothing only when there is none |
| VersionOrder.LatestByPlatform | services/server/ui_browse.go:1321-1338 | for every platform a version that no other of that platform beats |
| DownloadStats.TotalDownloads | services/server/stats_prometheus.go:63-73 | the sum over the keys that the filter lets through, for every map order |
| DownloadStats.BatchResourceDownloadStats | services/server/stats_prometheus.go:126-154 | exactly the requested resources with a positive count, each with its sum and latest time |
| DownloadStats.GroupByResource | services/server/stats_prometheus.go:84-104 | exactly one entry per resource with a counted key, holding the sum and the latest time over its keys |
| DownloadStats.SortPopularResources | services/server/stats_prometheus.go:282-293 | the in-place exchange sort yields a permutation ordered by count descending, then key ascending |
| DownloadStats.MostDownloaded | services/server/stats_prometheus.go:84-116 | a complete ranking, cut at the limit; a panic for a negative limit |
| DownloadStats.MostDownloadedFirst | services/server/stats_prometheus.go:84-116 | more downloads come first and of equally many the earlier name, and what a limit leaves out has no more downloads than what it keeps |
| DownloadStats.CountsIff | services/server/stats_prometheus.go:84-124 | a key is counted if and only if it is written namespace/kind/name/version, in the namespace asked for, of a visible resource |
| DownloadStats.KeyIsWritten | services/server/stats_helpers.go:14-21 | a key is taken apart at its first three slashes, and not at all when it has fewer |
| DownloadStats.RankingConservesTotal | services/server/stats_prometheus.go:63-116 | under one filter the counts of the untruncated ranking sum to the total |
| DownloadStats.RankingAgreesWithBatch | services/server/stats_prometheus.go:84-154 | without a filter, ranking and batch query give a resource the same count and time |
| DownloadStats.PositiveInBatch | services/server/stats_prometheus.go:84-154 | without a filter, a resource has a positive count in the ranking if and only if it has one in the batch query |
| DownloadStats.RankingUnique | services/server/stats_prometheus.go:84-116 | two rankings of one snapshot show the same rows, whatever the map orders |
| ScanPolicies.CheckNamespace | services/server/policy_api.go:86-102 | the loop over the caller's namespaces decides membership |
| ScanPolicies.CheckScope | services/server/policy_api.go:112-133 | the early-return loops authorize namespace-wide policies by the matching right and others target by target |
| ScanPolicies.ScopeAuthorizedIff | services/server/policy_api.go:86-133 | a policy may be managed if and only if there is no verification, or the caller's group lists the namespace or `*` and has the namespace-wide right, or for a policy that names targets the right to each |
| ScanPolicies.IfMatchToken | services/server/policy_api.go:470-478 | a token is read with and without quotes, and the wildcard and a missing token are refused |
| ScanPolicies.HandleUpdate | services/server/policy_api.go:335-414 | status and store after an update, with other clients' writes before the read and between read and write |
| ScanPolicies.HandleDelete | services/server/policy_api.go:416-468 | status and store after a delete, with the same interference |
| ScanPolicies.UpdateEffect | services/server/policy_api.go:335-414 | for every interleaving an update succeeds if and only if the request is sound, the policy read and the policy to be stored may both be managed, and the token is current at the write; it then stores the body under the name and namespace of the URL and changes no other object, and otherwise stores nothing |
| ScanPolicies.DeleteEffect | services/server/policy_api.go:416-468 | likewise for a removal |
| ScanPolicies.OldVersionUnchanged | services/server/policy_api.go:335-478 | an object whose version is not newer than the clock was is still the same object |
| ScanPolicies.WriteHitsReadObjectIff | services/server/policy_api.go:335-478 | a write whose token matches hits the object that was read if and only if the token had been issued by then |
| ScanPolicies.GuessedTokenHitsAnother | services/server/policy_api.go:470-478 | a token that is guessed before it is issued can hit another object |
| ScanPolicies.UpdateIsSafe | services/server/policy_api.go:335-414 | with a token issued before the request, a successful update replaces exactly the object that was read and scope-checked |
| ScanPolicies.DeleteIsSafe | services/server/policy_api.go:416-468 | with a token issued before the request, a successful delete removes exactly the object that was read and scope-checked |
| Reconcilers.VersionsToKeep | pkg/utils/main.go:95-115 | the canonical versions sorted by precedence and cut to the limit; all without a limit; a panic when the limit exceeds the count or a version is empty |
| Reconcilers.TrimmingIsStable | pkg/utils/main.go:95-115 | trimming a list that was already trimmed leaves it as it is |
| Reconcilers.NewestAreKept | pkg/utils/main.go:95-115 | for every list and limit: without a limit all versions are kept, exactly as many as a smaller limit says and no version left out is newer, and none when the limit exceeds the list or a version is empty |
| Reconcilers.MatchVersions | services/depot/internal/controller/opendepot_depot_controller.go:266-282 | the distinct normal forms of the versions that parse and satisfy the constraint, each where it first occurs |
| Reconcilers.InGrid | services/provider/internal/controller/opendepot_providers_controller.go:107-117 | the written cells are exactly version × operating system × architecture |
| Reconcilers.NamesCollideIff | services/provider/internal/controller/opendepot_providers_controller.go:258-265 | where operating systems and architectures have no dashes, two Versions of a Provider share a name if and only if version, operating system and architecture are the same up to case and `.`, `_`, `/` and `-` |
| Reconcilers.InterruptionIsHarmless | services/provider/internal/controller/opendepot_providers_controller.go:83-157 | whatever an interrupted reconcile left, a complete one ends where it would have ended without the interruption |
| Reconcilers.ReconcileIsIdempotent | services/provider/internal/controller/opendepot_providers_controller.go:83-157 | a second reconcile changes nothing |
| Reconcilers.ExactlyTheWantedVersions | services/provider/internal/controller/opendepot_providers_controller.go:83-239 | after a complete reconcile the labelled Versions are exactly one for every version that the history limit keeps, every operating system and every architecture, with these in their fields and the Provider in their labels |
| Reconcilers.StaleAreRemovedIff | services/provider/internal/controller/opendepot_providers_controller.go:209-239 | when a version is dropped, the Versions that an earlier reconcile wrote for it are removed if and only if the configured name is the resource's name; and then stale Versions are removed from every store |
| Reconcilers.MisnamedKeepsStale | services/provider/internal/controller/opendepot_providers_controller.go:209-239 | a Provider `p` configured as `q` that drops 2.0.0 and keeps its Version |
| Reconcilers.EveryRunConverges | services/provider/internal/controller/opendepot_providers_controller.go:59-206 | over any sequence of Depot writes, completed and interrupted reconciles, the next completed one ends in the store the initial one determines |
| ControlLoops.Cluster.EnsureVersion | services/provider/internal/controller/opendepot_providers_controller.go:126-155 | a Version is created or brought up to date and outdated writes are refused; every object that was there keeps the file name that others recorded last, or else its own |
| ControlLoops.Cluster.WriteVersions | services/provider/internal/controller/opendepot_providers_controller.go:107-157 | the triple loop writes every cell and collects its name, and only creates what was absent |
| ControlLoops.Cluster.ReconcileVersionRemovals | services/provider/internal/controller/opendepot_providers_controller.go:209-239 | exactly the selected Versions whose name is not wanted are deleted; interrupted, only some of them |
| ControlLoops.Cluster.Reconcile | services/provider/internal/controller/opendepot_providers_controller.go:59-206 | under interference before every call, a completed run ends in the reconciled store, a failed one on the way to it; every surviving Version is the same object with the file name that others recorded last, or else its own; undisturbed it completes |
| OptionalAttributes.Collector.WalkOptionalAttributes | pkg/hclschema/types.go:110-129 | adds every optional attribute name at any depth to the set, for every map order |
| OptionalAttributes.Collector.WalkOptionalAttributePaths | pkg/hclschema/types.go:131-151 | adds the dotted path of every optional attribute, for every map order |
| OptionalAttributes.Collector.CollectDefaultAttributePaths | pkg/hclschema/types.go:164-180 | adds the dotted path of every name with a default, an empty child key adding an empty segment or nothing |
| OptionalAttributes.CollectOptionalAttributes | pkg/hclschema/types.go:94-107 | the names of both walks together |
| OptionalAttributes.OptionalAttributePaths | pkg/hclschema/types.go:62-90 | the paths of both walks together, in ascending order |
| OptionalAttributes.ViewsAgreeIff | pkg/hclschema/types.go:62-180 | the last segments of the paths are the reported names if and only if no reported name contains a dot |
| OptionalAttributes.PathsAreChains | pkg/hclschema/types.go:131-151 | a path is reported if and only if some chain of attribute names leads through the type to an optional attribute |
| OptionalAttributes.PathsSplitIntoChains | pkg/hclschema/types.go:131-151 | with plain names, splitting a path at its dots gives the chain back |

## Left out

- HCL parsing inside text that a user typed, and formatting: such text is opaque, and what the library decides about it is a parameter; white space and indentation of emitted files are not modelled.
- HCL syntax that is never composed: operators, comprehensions other than `for x in e : x.path`, templates and legacy indexes occur only inside typed text.
- Static names of object keys and the reasons attached to unknown types: an object item carries its static name, if any.
- YieldsHasType: one way; where a condition fails, whether a value is lost depends on the values that occur, so the single rules have exact conditions or values outside them.
- Evaluation of operators, conditions, filters, keys, patterns, template files and indexes that are not names: their results may be anything their syntax allows. `merge` is evaluated on objects that are not null, and a repeated resource is one with `count`.
- Diagnostics: only whether there is one, not its code, message, path or order.
- MeaningKeptIff: for an output name that is not a dotted identifier one half is claimed, because what the library reads after the dot is then a parameter; typed indexes and keys are single expressions where they are written, and `WrittenReferenceMeans` says when that is so.
- CleanRequestIsWrittenIff: output names are dotted identifiers, because others may not read at all, and typed text that is written between other text stands alone, because text that ends in a comment or takes several lines makes something else of what follows.
- CountKeptIff: after text of several lines or ending in a heredoc the suffix may make the whole unreadable; the model then gives the count the value of the text, and claims only that its meaning is not kept.
- Attribute paths of the canvas that the request does not carry.
- Conversion between numbers and strings in an index.
- `isKnownStringExpression`, identifier validity, the parts of a typed conditional and where typed text ends: fields of the `Library` parameter.
- Sorting attributes or entries that share a name: the library's sort is not stable, the model's is; accepted values and clean models have distinct keys, types with repeated attribute names do not.
- Type encoding as JSON: a contract type is decoded, or absent when it cannot be decoded.
- Case folding beyond ASCII in resource names, and length limits of Kubernetes names.
- The retry of conflicting Provider updates: it is one call that succeeds or fails.
- The Module half of the Depot and the Module reconciler: their removal step compares version text that trimming rewrites.
- `ForceSync`, status fields, owner references and storage configuration of Providers and Versions.
- Semantic version parsing and precedence: a canonical form and an order, given as parameters.
- `String` and the error text of command output, process handling and timeouts.
- Prometheus queries, `batchVersionDownloadStats` and the dashboard endpoints that only repackage counts.
- Creating, reading and previewing policies, pattern matching of targets and OIDC verification: parameters of the handlers.
- Contract grading, symbol indexing, archives, mirrors, registry clients and the user interface.
- Machine integer overflow in counts and limits: integers are unbounded.
