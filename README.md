# Functional-interface specialisation, modelled in Dafny

This project models the core of `FunctionalInterfacesGenerator`, a C# source
generator. The generator rewrites calls that pass lambdas. Each such call goes
to a generic sibling overload whose lambda parameters are type parameters
constrained to a single-method interface ("functional interface"). The
generator emits one private struct per lambda that implements that interface,
and a copy of the method (`<Name>_FunctionalInterface`) whose body hands the
struct over by reference instead of allocating a delegate.

The compiler's semantic model is not reimplemented. Its answers are plain input
data (`Symbols.Facts`):
- the method an invocation binds to;
- the members of a type and the constraint types of a type parameter;
- the signature inferred for a lambda;
- the `Captured` and `DataFlowsIn` sets of a lambda's data-flow analysis.

Syntax is an abstract tree (`Syntax.Node`) holding only the node kinds the
generator tests for or builds. Roslyn's node tracking is a `tracked` flag on
invocation nodes, keyed by node id.

Modules, leaf to root:
- `Wrappers`: `Option`, `Result` and `Fault`. A `Fault` is an exception the C# code raises on that input.
- `Symbols`: the symbol facts.
- `Syntax`: the tree and its generic child traversal.
- `Tracking`: `TrackNodes`, `GetCurrentNode`, `InsertNodesBefore` and `ReplaceNode` over node ids.
- `Matcher`: `FindFunctionalInterfaceTarget`.
- `Naming`: the struct name, `GetHierarchy`, the namespace walk and the hint name.
- `Binding`: generic binding over the interface's containing type (the `Construct` path).
- `Transform`: the local function `TransformCall`, with its string-slot binding.
- `Rewrite`: the method-body rewrite for captured variables, and the init statements.
- `Output`: the indenting text writer as a class, and brace nesting.
- `Structs`: `GenerateFunctionalInterfaces`, covering the struct, its fields and the lambda-body rewrite.
- `Generator`: the output callback of `Initialize`, for one method declaration.

Imperative code keeps its form. The loops of the matcher, of `GetHierarchy`, of
`TransformCall` (over a `string[]` array) and of the output callback (over an
`IndentedTextWriter` object) are methods with loop invariants. Each method is
proved equal to a specification function, and the properties are proved as
lemmas about those functions.

Quirks of the code are kept as written:
- The position set is enumerated in ascending order.
- The dictionary is shared between overloads. A rejected overload can leave entries behind, and a later `Add` of the same key then raises. `Matcher.SharedDictionaryRaises` exhibits such an input. `Matcher.Reference` is the behaviour with a dictionary per overload, and `Matcher.TargetMatchesReference` shows that the two agree whenever the code raises nothing.
- The first candidate's lambda names the struct local and supplies the data flow for every candidate (lines 104 and 113).
- Line 472 indexes `candidate`, the overload the matcher found for the invocation being specialised (passed at line 111). It does so also for the invocations inside a lambda body, which have overloads of their own.
- The callee built at line 523 is dropped, so a callee that is not a member access is left unchanged.
- `Initializer!` on a captured declaration without an initializer raises.
- A type-argument slot that no entry writes stays null. Lines 512-515 pass every slot to `SyntaxFactory.IdentifierName`, and the model takes that call to raise `NullReference` on a null string. Roslyn is not part of this model.
- The replacement call is built from the candidate's original invocation, not from the rewritten body (line 111). So after the qualify pass, its non-lambda arguments come back unqualified: in `int y = 1; Foo(x => x + y, y);` the declaration becomes `__functionalInterface.y = 1;`, but the argument stays `y`. A candidate nested inside that call is untracked in the replacement, so its own pass finds nothing to replace (`Tracking.ReplaceWithoutTarget`).
- Each candidate's pass qualifies the whole body again, including the copies an earlier pass inserted. A copy `__functionalInterface.p = p;` of a captured parameter becomes `__functionalInterface.p = __functionalInterface.p;` (`Rewrite.LaterPassSelfCopy`).

The code differs from what one might expect in these points:
- When several overloads qualify, the first in member order wins; it is not rejected as ambiguous.
- A missing fact or a malformed shape can raise an exception (`Err`) that ends the whole callback. It does not only skip the one invocation.
- Init statements follow the kind of each declaring reference, not whether the symbol is a local (lines 156-185). `this` yields `__functionalInterface._this = this;`. Every other `DataFlowsIn` symbol yields one copy `__functionalInterface.x = x;` per declaring reference that is not a variable declarator. That covers parameters, and also locals declared by a `foreach`, a `catch` or a pattern or `out var` designation. Locals declared by a variable declarator get none (`Rewrite.CopiesFor`, `Rewrite.InitsOfMembers`).
- The hint name also carries `Arity_` for each generic class.

## Model

| member | source | states |
|---|---|---|
| Matcher.LambdaPositions | src/FunctionalInterfaces.SourceGenerator/FunctionalInterfacesGenerator.cs:229-237 | the positions are exactly those of simple or parenthesized lambda arguments, strictly ascending and in range |
| Matcher.CollectLambdaPositions | src/FunctionalInterfaces.SourceGenerator/FunctionalInterfacesGenerator.cs:228-237 | the loop yields exactly the lambda positions |
| Matcher.CheckShape | src/FunctionalInterfaces.SourceGenerator/FunctionalInterfacesGenerator.cs:255-275 | the parameter loop accepts iff every non-lambda position is a type parameter or the target's exact type, and every lambda position is a type parameter with one constraint |
| Matcher.FillDictionary | src/FunctionalInterfaces.SourceGenerator/FunctionalInterfacesGenerator.cs:277-294 | the loop over lambda positions adds each sole interface method to the shared dictionary, rejects at a constraint that is not such an interface, and raises on a duplicate key |
| Matcher.FindFunctionalInterfaceTarget | src/FunctionalInterfaces.SourceGenerator/FunctionalInterfacesGenerator.cs:226-303 | the imperative search, with its shared dictionary and `goto CONTINUE`, computes the specification `Target` |
| Matcher.TargetNone | src/FunctionalInterfaces.SourceGenerator/FunctionalInterfacesGenerator.cs:239-248 | no lambda argument, or an invocation that binds to no method, gives (null, empty) |
| Matcher.TargetSound | src/FunctionalInterfaces.SourceGenerator/FunctionalInterfacesGenerator.cs:251-296 | a found candidate is a same-name sibling, differs from the target, has arity > 0 and an equal parameter count, and passes the shape check; the keys are exactly the lambda positions in ascending order; each value is the sole method of that position's constraint interface |
| Matcher.FirstQualifying | src/FunctionalInterfaces.SourceGenerator/FunctionalInterfacesGenerator.cs:251-302 | reference search with a dictionary per overload: the result qualifies and carries its canonical mapping; None iff no overload qualifies |
| Matcher.FirstQualifyingIsFirst | src/FunctionalInterfaces.SourceGenerator/FunctionalInterfacesGenerator.cs:296 | no overload before the one returned qualifies (first in member order wins) |
| Matcher.TargetMatchesReference | src/FunctionalInterfaces.SourceGenerator/FunctionalInterfacesGenerator.cs:250-302 | whenever the search raises nothing, its answer is the reference's: the first qualifying overload and its mapping, or none |
| Matcher.SearchClean | src/FunctionalInterfaces.SourceGenerator/FunctionalInterfacesGenerator.cs:250-300 | when no overload leaves a partial dictionary behind, the search raises nothing and returns the reference's answer |
| Matcher.FillAfterPartial | src/FunctionalInterfaces.SourceGenerator/FunctionalInterfacesGenerator.cs:292-293 | once a rejected overload has left the first lambda position in the shared dictionary, a later qualifying overload raises DuplicateKey and no overload is accepted |
| Matcher.SharedDictionaryRaises | src/FunctionalInterfaces.SourceGenerator/FunctionalInterfacesGenerator.cs:250-293 | a concrete overload set on which the shared dictionary raises DuplicateKey, while the reference finds the second overload |
| Symbols.SoleInterfaceMethod | src/FunctionalInterfaces.SourceGenerator/FunctionalInterfacesGenerator.cs:281-290 | Some exactly when the type is an interface whose member list is one method, and then it is that method |
| Symbols.IndexOf | src/FunctionalInterfaces.SourceGenerator/FunctionalInterfacesGenerator.cs:342 | the first index holding the type parameter, or -1 iff it is absent |
| Naming.TypeName | src/FunctionalInterfaces.SourceGenerator/FunctionalInterfacesGenerator.cs:106 | the struct name contains no `<` or `>` |
| Naming.HexRoundTrip | src/FunctionalInterfaces.SourceGenerator/FunctionalInterfacesGenerator.cs:106 | `{n:X}` text parses back to n |
| Naming.TypeNameInjective | src/FunctionalInterfaces.SourceGenerator/FunctionalInterfacesGenerator.cs:367 | equal struct names imply equal method offsets, equal lambda offsets and equal bracket-replaced identifiers, so distinct lambdas of one method never collide |
| Naming.GetHierarchy | src/FunctionalInterfaces.SourceGenerator/FunctionalInterfacesGenerator.cs:305-320 | the walk returns the positions of exactly the class declarations in the parent chain, innermost first |
| Naming.FindNamespace | src/FunctionalInterfaces.SourceGenerator/FunctionalInterfacesGenerator.cs:61-74 | walking up from the outermost class, the namespace kept is the outermost one below the compilation unit, and the walk reports whether it reached the unit |
| Naming.BuildHintName | src/FunctionalInterfaces.SourceGenerator/FunctionalInterfacesGenerator.cs:76-97 | the builder holds the namespace part, then `Name_` plus `Arity_` for each generic class, outermost first, then (lines 216-217) the identifier and `.g.cs` |
| Naming.HintNameInjective | src/FunctionalInterfaces.SourceGenerator/FunctionalInterfacesGenerator.cs:216-217 | within one namespace and class hierarchy, two methods get the same hint name exactly when their identifiers agree, so the overloads of one method share it |
| Naming.DotsToUnderscores | src/FunctionalInterfaces.SourceGenerator/FunctionalInterfacesGenerator.cs:78 | each `.` of the namespace becomes `_`; every other character is kept |
| Binding.Resolve | src/FunctionalInterfaces.SourceGenerator/FunctionalInterfacesGenerator.cs:331-364 | non-generic containing type: unchanged; otherwise the same interface with as many type arguments, the return type replaced by the lambda's iff it names a slot, and an exception iff a slot-naming parameter has no lambda parameter |
| Binding.ResolveSlots | src/FunctionalInterfaces.SourceGenerator/FunctionalInterfacesGenerator.cs:335-363 | a slot named by the j-th parameter (the last such) gets the lambda's j-th parameter type; otherwise a slot named by the return type gets the lambda's return type; every other slot keeps its type argument |
| Binding.ResolveIdentity | src/FunctionalInterfaces.SourceGenerator/FunctionalInterfacesGenerator.cs:335-363 | a lambda whose types equal the interface's own leaves the constructed interface as it was |
| Binding.ResolveContainingType | src/FunctionalInterfaces.SourceGenerator/FunctionalInterfacesGenerator.cs:331-365 | the array-filling code computes `Resolve` |
| Binding.WriteParameterSlots | src/FunctionalInterfaces.SourceGenerator/FunctionalInterfacesGenerator.cs:349-360 | the parameter loop writes each named slot, or reports the missing lambda parameter |
| Transform.TransformUntargeted | src/FunctionalInterfaces.SourceGenerator/FunctionalInterfacesGenerator.cs:425-435 | a call that binds to no method, or has no candidate, is returned unchanged |
| Transform.TransformArgs | src/FunctionalInterfaces.SourceGenerator/FunctionalInterfacesGenerator.cs:438-510 | the argument count, node id and tracking stay; exactly the mapped positions become `Unsafe.As<…>(ref __functionalInterface)` (outer call) or `(ref this)` (inside a body); every other argument is untouched |
| Transform.MappedAreLambdas | src/FunctionalInterfaces.SourceGenerator/FunctionalInterfacesGenerator.cs:438-442 | the mapped positions are exactly the call's lambda arguments |
| Transform.TransformCallee | src/FunctionalInterfaces.SourceGenerator/FunctionalInterfacesGenerator.cs:438-526 | when the call is rewritten, every slot has been written (`LastWrite` is Some for each); a member-access callee gets the target's name with one type argument per type parameter of the overload, slot s holding the entries' last write into s; any other callee is left as it was |
| Transform.TransformUnset | src/FunctionalInterfaces.SourceGenerator/FunctionalInterfacesGenerator.cs:512-515 | when the entries run through but leave some slot unwritten, the call raises NullReference |
| Transform.ParamSlotsErr | src/FunctionalInterfaces.SourceGenerator/FunctionalInterfacesGenerator.cs:456-467 | the parameter loop raises exactly when a parameter whose type names a slot has no lambda parameter at its position |
| Transform.ParamSlotsAt | src/FunctionalInterfaces.SourceGenerator/FunctionalInterfacesGenerator.cs:456-467 | otherwise slot s holds the lambda's parameter type at the last parameter that names s, or what it held before |
| Transform.SigSlotsAt | src/FunctionalInterfaces.SourceGenerator/FunctionalInterfacesGenerator.cs:444-468 | with a lambda signature: an exception exactly when a slot-naming parameter lacks its lambda parameter; otherwise a slot named by a parameter holds the type of the lambda's parameter at the last such position, else a slot named by the return type holds the lambda's return type, else it is unchanged |
| Transform.EntrySlotsAt | src/FunctionalInterfaces.SourceGenerator/FunctionalInterfacesGenerator.cs:439-475 | after one entry, slot s holds the entry's specialised name when the outer candidate's parameter at its position names s, otherwise what the lambda's signature writes, otherwise what it held |
| Transform.EntriesSlotsAt | src/FunctionalInterfaces.SourceGenerator/FunctionalInterfacesGenerator.cs:437-509 | after the dictionary loop, slot s holds the last entry's write into s, or what it held when no entry writes it |
| Transform.TransformSlot | src/FunctionalInterfaces.SourceGenerator/FunctionalInterfacesGenerator.cs:470-475 | the slot named by the outer candidate's parameter type holds the specialised name of the last mapped lambda |
| Transform.WriteParamSlots | src/FunctionalInterfaces.SourceGenerator/FunctionalInterfacesGenerator.cs:456-467 | the loop writes the lambda's parameter type names into the string slots, as `ParamSlots` specifies |
| Transform.ApplyAllTo | src/FunctionalInterfaces.SourceGenerator/FunctionalInterfacesGenerator.cs:438-510 | the loop over the dictionary fills the array and reassigns the invocation, as `ApplyEntries` specifies |
| Transform.TransformCall | src/FunctionalInterfaces.SourceGenerator/FunctionalInterfacesGenerator.cs:423-527 | the local function computes `TransformCallSpec`, raising NullReference when a slot is left null |
| Rewrite.QualifySettles | src/FunctionalInterfaces.SourceGenerator/FunctionalInterfacesGenerator.cs:117-146 | after the rewrite, no captured identifier is left outside `__functionalInterface.` and no single-variable declaration of a captured local is left |
| Rewrite.SettledFixed | src/FunctionalInterfaces.SourceGenerator/FunctionalInterfacesGenerator.cs:117-146 | a tree with nothing left to rewrite is returned unchanged |
| Rewrite.QualifyIdempotent | src/FunctionalInterfaces.SourceGenerator/FunctionalInterfacesGenerator.cs:117-146 | rewriting twice equals rewriting once |
| Rewrite.QualifyBodyIdempotent | src/FunctionalInterfaces.SourceGenerator/FunctionalInterfacesGenerator.cs:117-147 | two passes over the same body, back to back, give what one pass gives |
| Rewrite.QualifyCopyInit | src/FunctionalInterfaces.SourceGenerator/FunctionalInterfacesGenerator.cs:117-146 | a pass over a copy `__functionalInterface.x = x` of a captured variable turns it into `__functionalInterface.x = __functionalInterface.x` |
| Rewrite.LaterPassSelfCopy | src/FunctionalInterfaces.SourceGenerator/FunctionalInterfacesGenerator.cs:109-189 | a copy that an earlier candidate's pass inserted into the method body's statements is a self-assignment after the next candidate's pass |
| Rewrite.CopiesFor | src/FunctionalInterfaces.SourceGenerator/FunctionalInterfacesGenerator.cs:170-186 | every statement is `__functionalInterface.n = n`, and there is one iff some declaring reference is not a `VariableDeclarator` |
| Rewrite.InitsOfMembers | src/FunctionalInterfaces.SourceGenerator/FunctionalInterfacesGenerator.cs:153-187 | an init statement is `__functionalInterface._this = this` for a `this` entry, or `__functionalInterface.n = n` for a non-declarator symbol, and every such entry yields one |
| Rewrite.InitStatements | src/FunctionalInterfaces.SourceGenerator/FunctionalInterfacesGenerator.cs:153-187 | the loop yields the init statements in `DataFlowsIn` order |
| Tracking.InsertBeforeAt | src/FunctionalInterfaces.SourceGenerator/FunctionalInterfacesGenerator.cs:189 | the inits go immediately before the tracked call's statement, and the rest of the block is unchanged |
| Tracking.ReplaceTrackedRemoves | src/FunctionalInterfaces.SourceGenerator/FunctionalInterfacesGenerator.cs:192 | after ReplaceNode the tracked invocation is no longer found |
| Tracking.ReplaceWithoutTarget | src/FunctionalInterfaces.SourceGenerator/FunctionalInterfacesGenerator.cs:149-192 | a body without the tracked invocation is left as it is |
| Structs.RewriteNoThis | src/FunctionalInterfaces.SourceGenerator/FunctionalInterfacesGenerator.cs:401-413 | in every descendant of the lambda body, after the rewrite, no `this` is left except as the `ref` operand of a cast that TransformCall built; the body node itself is kept, so a body that is `this` stays |
| Structs.FieldsOfMembers | src/FunctionalInterfaces.SourceGenerator/FunctionalInterfacesGenerator.cs:376-396 | a line is a field exactly when some captured local or parameter gives it, named after it, with `this` named `_this`; other symbols give none |
| Structs.FieldsOfOrder | src/FunctionalInterfaces.SourceGenerator/FunctionalInterfacesGenerator.cs:376-396 | as many fields as captured locals and parameters, in capture order: the j-th field is typed and named after the j-th of them |
| Structs.WriteFields | src/FunctionalInterfaces.SourceGenerator/FunctionalInterfacesGenerator.cs:378-395 | the loop writes exactly the field lines, at the current indent |
| Structs.WriteField | src/FunctionalInterfaces.SourceGenerator/FunctionalInterfacesGenerator.cs:380-394 | a captured local or parameter gets one field line at the current indent, named `_this` for the `this` parameter; any other symbol gets none |
| Structs.StructNested | src/FunctionalInterfaces.SourceGenerator/FunctionalInterfacesGenerator.cs:372-418 | a struct's lines open and close one brace, and each tabbed line sits at its depth |
| Structs.EmitEntryName | src/FunctionalInterfaces.SourceGenerator/FunctionalInterfacesGenerator.cs:367-372 | an entry's struct is named from the method and its own lambda's offset, and implements the resolved interface |
| Structs.EmitEntriesLastName | src/FunctionalInterfaces.SourceGenerator/FunctionalInterfacesGenerator.cs:324-367 | the name the struct loop ends with, the one the candidate call casts to, is that of the last entry's lambda |
| Structs.SpecialisedCallSlots | src/FunctionalInterfaces.SourceGenerator/FunctionalInterfacesGenerator.cs:111-421 | with the found overload as the outer candidate, the candidate call's renamed callee holds, in each slot, the entries' last write into it |
| Structs.SpecialisedLastSlot | src/FunctionalInterfaces.SourceGenerator/FunctionalInterfacesGenerator.cs:470-475 | with the found overload as the outer candidate, the slot that its parameter at the last lambda's position names holds the name of that lambda's struct |
| Structs.GenerateFunctionalInterfaces | src/FunctionalInterfaces.SourceGenerator/FunctionalInterfacesGenerator.cs:322-421 | the method writes the structs of `GenerateSpec`, leaves the indent as it was, and returns the transformed candidate call |
| Output.Writer.Open | src/FunctionalInterfaces.SourceGenerator/FunctionalInterfacesGenerator.cs:82-83 | `{` at the current indent, then the indent is one deeper |
| Output.Writer.Close | src/FunctionalInterfaces.SourceGenerator/FunctionalInterfacesGenerator.cs:206-207 | the indent is one shallower (never below 0), then `}` is written at it |
| Generator.Candidates | src/FunctionalInterfaces.SourceGenerator/FunctionalInterfacesGenerator.cs:25-41 | every collected candidate is one of the method's invocations with the overload and dictionary the matcher returns for it; its dictionary is non-empty and maps only lambda positions of its invocation |
| Generator.NoCandidates | src/FunctionalInterfaces.SourceGenerator/FunctionalInterfacesGenerator.cs:43-46 | nothing is collected iff the matcher finds nothing, and raises nothing, for every invocation |
| Generator.CollectCandidates | src/FunctionalInterfaces.SourceGenerator/FunctionalInterfacesGenerator.cs:26-41 | the loop over the descendant nodes collects `Candidates` in document order |
| Generator.WritePreamble | src/FunctionalInterfaces.SourceGenerator/FunctionalInterfacesGenerator.cs:50-56 | a new writer holding the auto-generated header, `#nullable enable`, `#pragma warning disable` and a blank line, at indent 0 |
| Generator.FirstLambda | src/FunctionalInterfaces.SourceGenerator/FunctionalInterfacesGenerator.cs:104 | the cast to a lambda at the first candidate's first key succeeds |
| Generator.RewriteBody | src/FunctionalInterfaces.SourceGenerator/FunctionalInterfacesGenerator.cs:113-193 | qualify captured variables, then, while the call is still present, insert the inits (only under an expression statement) and replace the call, as `NextBody` specifies |
| Generator.PlaceCallIn | src/FunctionalInterfaces.SourceGenerator/FunctionalInterfacesGenerator.cs:149-193 | while the tracked call is still in the body, the inits go before its statement (with data flow, under a statement only) and the call is replaced, as `PlaceCall` specifies; otherwise the body is left as it is |
| Generator.ProcessCandidates | src/FunctionalInterfaces.SourceGenerator/FunctionalInterfacesGenerator.cs:109-196 | the loop over candidates writes each candidate's structs, built with that candidate's found overload as the outer candidate, and a blank line, and threads the body through `NextBody` |
| Generator.WriteClassHeads | src/FunctionalInterfaces.SourceGenerator/FunctionalInterfacesGenerator.cs:86-102 | one `partial class` head and `{` per class, outermost first, each one level deeper |
| Generator.WriteClosings | src/FunctionalInterfaces.SourceGenerator/FunctionalInterfacesGenerator.cs:209-213 | one `}` per class and one for the namespace, each one level shallower |
| Generator.WriteTail | src/FunctionalInterfaces.SourceGenerator/FunctionalInterfacesGenerator.cs:198-216 | after the candidates' lines, the forwarding method and one `}` per open level are written, and the hint name is namespace, class parts, identifier and `.g.cs`: the file `FileLines` and `HintName` describe |
| Generator.WriteFile | src/FunctionalInterfaces.SourceGenerator/FunctionalInterfacesGenerator.cs:48-220 | the writer and builder code computes `EmitFile` (hint name and lines) |
| Generator.EmitBalanced | src/FunctionalInterfaces.SourceGenerator/FunctionalInterfacesGenerator.cs:81-213 | in the generated file every opened brace is closed, and every tabbed line sits at the depth of the braces open around it |
| Generator.Generate | src/FunctionalInterfaces.SourceGenerator/FunctionalInterfacesGenerator.cs:23-222 | the callback adds no file when there is no candidate, and otherwise the file of `EmitFile` |

## Left out

- Generator registration and the incremental pipeline (`CreateSyntaxProvider`, `RegisterImplementationSourceOutput`, `AddSource`) are host plumbing. `Generator.Generate` returns the file instead of adding it.
- The compiler's semantic model (`GetSymbolInfo`, `AnalyzeDataFlow`, `GetMembers`, symbol equality) is input data, not reimplemented. Symbol equality is datatype equality.
- `OriginalDefinition.Construct(...)` followed by `GetMembers(name).Single()` is modelled as the same named interface with the rebound type arguments. The re-looked-up method keeps its name, and its substituted parameter list is not modelled, because it is only printed.
- Text emission: how types, parameter lists, usings and bodies print, `NormalizeWhitespace`, the `async` modifier and `ToFullString` are kept symbolic as `Output.Item` values. Only the line structure and indentation are modelled.
- `IndentedTextWriter` is modelled only as far as the indent counter and the line list go.
- Roslyn's node identity (`TrackNodes`, `GetCurrentNode`) is a `tracked` flag on invocation nodes keyed by node id. `InsertNodesBefore` treats only a block's statements as a list, so an expression statement anywhere else raises. Switch sections and other statement lists of C# are not represented.
- The runtime meaning of `Unsafe.As` (same-layout reinterpretation), and any claim that the emitted C# compiles or behaves like the original method: these need the CLR's memory model.
- Invocations in attributes or parameter defaults are not collected. Only the block body and the expression body are walked.
