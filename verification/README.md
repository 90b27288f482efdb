# Cojac, modelled and verified in Dafny

Cojac rewrites Java bytecode so that every `float` and `double` becomes a wrapper object, and it brings the
arithmetic that can stand behind those wrappers. This project models the parts with the hardest logic and proves
what they are for. `dafny verify dfyconfig.toml` checks all of it (Dafny 4.11).

## What is modelled

* **The rewriter** (`Opcodes`, `WrapperBasic`, `Jvm`, `OperandStack`, `Analyzer`, `AnalyzerSlots`,
  `FloatVariablesSorter`, `FloatReplacement`, `LocalVariables`, `StackRewriting`, `AnalyzerTracking`, `Simulation`,
  `FloatReplacerMethodVisitor`, `FrameShift`, `VirtualCalls`, `HiddenStatic`, `LongLocals`, `LongOperands`,
  `WrapperLaws`). A JVM with values of one and two slots (sections 2.11.1 and 6.5 of the Java Virtual Machine
  Specification), locals in which a wide value covers two slots, calls, jumps and frames; a type system for it; the
  three visitors of the chain as classes that emit code step by step; and the proof that the rewritten program simulates
  the original one. The rewriter decides from the types that ASM's analyzer infers from the code it has *emitted*; that
  analyzer, with its list of stack slots, is part of the model, and that it stays right is part of the proof. Virtual
  calls with a double in the signature go through the proxy generator, even for methods that are rewritten; to the
  simulation such a call is one instruction.
* **The proxy generator** (`Descriptors`, `ProxyMachine`, `ProxyCode`, `StackEffects`, `ConvertMethodProof`,
  `ProxyCallProof`, `ProxyCorrectness`, `FloatProxyMethod`, `ProxyPaths`, `ProxiedCalls`, `SharedConversion`,
  `SharedCalls`). The code around a call that needs conversions, run on a machine with object arrays on a heap, a log of
  what is done to the outside, and conversions as applications of static helpers; for every signature. `ProxiedCalls`
  shows that for a rewritten method this code does what the one instruction of the simulation does.
* **Automatic differentiation** (`Autodiff.dfy`, `AutodiffSlope`): adjoints on a shared graph of objects, against sums
  over explicit paths and against forward mode, and forward mode against the definition of a derivative.
* **LU factorization** (`LinearAlgebra`, `LuTheory`, `LU`), **three-way quicksort** (`JavaSort`) and **bit reversal**
  (`BitReversal`), in place on arrays.
* **Intervals** (`FloatingPoint`, `FloatInterval`, `Remainders`, `FloatRemainder`, `IntervalModulo`, `PackedInterval`):
  outward rounding over any format of binary floating-point numbers (so `FloatInterval` and `DoubleInterval`, whose code
  is the same), and an interval packed into the bits of one double. Rounding is any function to a nearest number.
* **Symbolic expressions** (`SymbolicExpression`, `SymbolicOperators`, `SymbUtils`): smart evaluation against plain
  evaluation, and derivation against the definition of a derivative.
* **Delta debugging** (`DeltaDebugger`), **common superclasses** (`ModifiedClassWriter`) and **patterns**
  (`SymbPattern`, `PatternMeaning`), whose matches are proved to keep the value of an expression.

`Collections`, `Reals` and `Powers` hold shared definitions. Functions and predicates describe what the code computes;
classes and methods have the form of the code and are proved against them.

## Where the code does not do what it is for

Each of these is a theorem that says exactly when the code is right, and another one with an input for which it is not.

* A stack instruction that takes a double from under the top is rewritten wrongly (`StackExact`, `IntOverDouble`).
* A `long` stored in the slot of a `double` parameter, and a store into the second slot of one, break the renumbering
  (`StoreExact`, `LongOverParameters`).
* `FloatVariablesSorter.visitFrame` moves the entries after a double down, though the variables of the body keep
  their numbers. The analyzer then knows the wrong types, and a later `DUP2` of a double is left as it is: a
  well-typed method that returns a value becomes one that does not (`FrameExact`, `AlignedExactly`,
  `FrameBreaksRewriting`).
* A virtual call of a rewritten method with a double in its signature fails unless the method is public: reflection
  looks at public methods only, and the fallback calls a descriptor that is no longer there (`PublicExactly`,
  `HiddenMethodBreaks`).
* After such a call the analyzer has its wrappers in wrong places, if they are variables with a `long` below or stack
  entries with a `long` above: its lists of slots are given back to it as the values of a frame. A well-typed program
  that returns a value becomes one that does not (`RelocatedExactly`, `FramedExactly`, `LongBreaksRewriting`).
* Comparisons of wrappers rest on `Double.compare`, for which the zeros differ (`ComparisonExactly`, `ZerosDiffer`).
* The result of a proxied call that returns an array of `Float` or `Double` is not converted: no code is emitted for it
  (`ResultTypedExactly`, `SameShape`, `FloatObjectsStay`).
* `COJAC_TYPE_CONVERT` is shared by call sites whose methods have different original types but the same replaced ones.
  That works exactly if the types differ in boxing only and plain objects are treated alike, or an instrumented method
  is found (`SharedDirectExactly`, `SharedBetterExactly`, `ArraysOfFloatStop`).
* Both rules for quotients in automatic differentiation are wrong but for special operands (`ForwardDivisionAt`,
  `QuotientSlopeExactly`, `ReverseDivisionAt`, `QuotientRulesAgreeExactly`, `InverseOfTwo`, `ModesDiffer`).
* Interval `modulo` compares quotients after rounding and a cast to `int`: quotients that were rounded up or cut off
  look the same (`ModuloContainsExactly`, `MissesZero`, `MissesHalf`).
* A packed interval whose stored gap overflows comes back without an upper bound (`RoundTripExactly`, `LargestIsLost`).
* Patterns with minimum or maximum are not matched with the operands exchanged, though both commute
  (`CommutativeExactly`, `MinimumIsMissed`).
* `getCommonSuperClass` depends on the order of its arguments for two interfaces of which one extends the other
  (`OrderMattersExactly`, `OrderMatters`).

## Model

| member | source | states |
|---|---|---|
| `Simulation.SameResults` | src/main/java/com/github/cojac/FloatReplacerMethodVisitor.java:96-206 | A call of any method of a rewritten program, with wrapped arguments, returns a value exactly if the original call returns the value that it wraps; one terminates just when the other does. For every program in the fragment. |
| `Simulation.SimulateRun` | src/main/java/com/github/cojac/FloatReplacerMethodVisitor.java:96-206 | Whatever n steps of the original reach, n to 2n steps of the rewritten program reach the image of; when one stops, so does the other. |
| `Simulation.SimulateStep` | src/main/java/com/github/cojac/FloatReplacerMethodVisitor.java:96-139 | From related states, one step of the original is one or two steps of the rewritten program, to related states, calls and returns included; the original is stuck or done exactly when the other is. |
| `Simulation.SimulateInvoke` | src/main/java/com/github/cojac/instrumenters/ReplaceFloatsMethods.java:300-307 | Every call but a virtual one with a double in its descriptor, and that of a public method, leads from related states to related states, the callee started with the images of the arguments. |
| `VirtualCalls.PublicExactly` | src/main/java/com/github/cojac/instrumenters/ReplaceFloatsMethods.java:300-307 | At any call of a rewritten method the two programs do the same exactly if it is no INVOKEVIRTUAL with a double in its descriptor or the method is public: no other is found, and the fallback calls a descriptor with a double, which no rewritten method has. |
| `VirtualCalls.OtherCallsStay` | src/main/java/com/github/cojac/instrumenters/ReplaceFloatsMethods.java:300-307 | For every other opcode, doubles or not, public or not, the call itself is emitted with the replaced descriptor; the programs do the same, and the fragment asks nothing of it. |
| `VirtualCalls.HiddenMethodBreaks` | src/main/java/com/github/cojac/instrumenters/ReplaceFloatsMethods.java:300-307 | A concrete program that returns 1.0, whose rewritten form never returns anything. |
| `HiddenStatic.HiddenStaticWorks` | src/main/java/com/github/cojac/instrumenters/ReplaceFloatsMethods.java:300-307 | Its twin with INVOKESTATIC: the rewritten program returns the wrapped 1.0, though the method is not public. |
| `AnalyzerSlots.RelocatedExactly` | src/main/java/com/github/cojac/instrumenters/FloatProxyMethod.java:142-242 | The list of variables that is given to the analyzer after a proxied call leaves every wrapper in its slot exactly if no wide variable is below a wrapper. |
| `AnalyzerSlots.FramedExactly` | src/main/java/com/github/cojac/instrumenters/FloatProxyMethod.java:142-242 | The list of stack slots that is given to it leaves every wrapper at its distance from the top exactly if no wide entry is above a wrapper. |
| `LongLocals.LongHidesWrapper` | src/main/java/com/github/cojac/instrumenters/FloatProxyMethod.java:142-242 | After a proxied call in a method of a long and a double the analyzer misses the wrapper, and DUP2 of it is left as it is. |
| `LongLocals.LongBreaksRewriting` | src/main/java/com/github/cojac/instrumenters/FloatProxyMethod.java:142-242 | A concrete program with such a method: it returns its argument, whatever that is, and its rewritten form never returns anything. |
| `LongLocals.KeepIsWellTyped` | src/main/java/com/github/cojac/instrumenters/FloatProxyMethod.java:142-242 | That method is well typed and calls a public one; only what the analyzer loses at the call is outside the fragment. |
| `LongOperands.SumsRewritable` | src/main/java/com/github/cojac/instrumenters/FloatProxyMethod.java:142-242 | A program that calls a method with doubles through the proxy, a long under the operands, is in the fragment. |
| `Simulation.WrapperSimulates` | src/main/java/com/github/cojac/models/wrappers/WrapperBasic.java:40-58 | Every wrapper method that replaces an instruction on doubles, built from `applyUnaryOp`, `applyBinaryOp`, `fromDouble`, `toDouble` and `compareTo`, gives the image of what the instruction gives, for all operands of the right types. The next rows say what both give. |
| `WrapperLaws.Comparisons` | src/main/java/com/github/cojac/models/wrappers/ACojacWrapper.java:38-45 | `dcmpl` and `dcmpg` of wrappers, and the instructions, are negative, zero or positive just as a < b, a == b or a > b; the former is what `Double.compare` gives. |
| `WrapperLaws.Sums` | src/main/java/com/github/cojac/models/wrappers/WrapperBasic.java:40-58 | Sum less second operand, and difference plus second operand, are the first one. |
| `WrapperLaws.Products` | src/main/java/com/github/cojac/models/wrappers/WrapperBasic.java:40-58 | The product of both operands. |
| `WrapperLaws.Quotients` | src/main/java/com/github/cojac/models/wrappers/WrapperBasic.java:40-58 | Quotient times second operand is the first one; the remainder has the sign of the first operand, is smaller than the second and differs from the first by an integer multiple of it; none of them exactly for 0. |
| `WrapperLaws.Conversions` | src/main/java/com/github/cojac/models/wrappers/WrapperBasic.java:40-58 | Narrowing to int or long goes towards zero by less than 1, and to the nearest end outside the type; negation. |
| `WrapperLaws.Widenings` | src/main/java/com/github/cojac/models/wrappers/WrapperBasic.java:40-58 | Ints and longs keep their value. |
| `WrapperBasic.ComparisonExactly` | src/main/java/com/github/cojac/models/wrappers/ACojacWrapper.java:38-45 | On all doubles, infinities and NaN included, `dcmpl` and `dcmpg` of wrappers give what the instructions give exactly if the operands are not two zeros of different sign. |
| `WrapperBasic.OrderOfNumbers` | src/main/java/com/github/cojac/models/wrappers/ACojacWrapper.java:38-45 | The order that the instructions compare by: reals between the infinities, equal zeros, NaN in no order. |
| `AnalyzerTracking.Tracking` | src/main/java/com/github/cojac/FloatReplacerMethodVisitor.java:96-110 | Before every reachable instruction the analyzer, fed with the emitted code only, knows the image of the original types: so the choice between two-slot and one-slot forms is right. |
| `AnalyzerTracking.FrameExact` | src/main/java/com/github/cojac/FloatVariablesSorter.java:86-132 | The frame passed on leaves the analyzer with the wrappers that the new code loads, and with none where it loads another reference, exactly if every double of the frame has the same number as slot of the new frame and by renumbering. |
| `AnalyzerTracking.AlignedExactly` | src/main/java/com/github/cojac/FloatVariablesSorter.java:86-132 | For frames that still start with the parameters: exactly if no double of the body comes after a double. |
| `FrameShift.FrameBreaksRewriting` | src/main/java/com/github/cojac/FloatVariablesSorter.java:86-132 | A concrete method that returns 0.0, whose rewritten form never returns anything. |
| `FrameShift.ShiftIsWellTyped` | src/main/java/com/github/cojac/FloatVariablesSorter.java:86-132 | That method is well typed, and only its frame is outside the fragment. |
| `StackRewriting.StackExact` | src/main/java/com/github/cojac/FloatReplacerMethodVisitor.java:96-110 | For each stack instruction and shape of the stack: the emitted instruction leaves the image of what the original leaves, for all values, exactly if it takes no double from under the top. |
| `StackRewriting.IntOverDouble` | src/main/java/com/github/cojac/FloatReplacerMethodVisitor.java:96-110 | DUP_X2 of an int over a double has an effect before rewriting, and not the image of it after. |
| `OperandStack.CopiesUnder` | src/main/java/com/github/cojac/FloatReplacerMethodVisitor.java:96-110 | What the six copying stack instructions do to values of one slot: the topmost one or two are copied under none, one or two more. |
| `OperandStack.DropsAndSwaps` | src/main/java/com/github/cojac/FloatReplacerMethodVisitor.java:96-110 | The other three drop the topmost one or two, or exchange two. |
| `AnalyzerSlots.ShuffledSlots` | src/main/java/com/github/cojac/FloatReplacerMethodVisitor.java:96-110 | Their forms for wide values do to elements what the form for slots does to the slots. |
| `LocalVariables.StoreExact` | src/main/java/com/github/cojac/FloatVariablesSorter.java:43-73 | A store keeps both sets of locals in agreement, for all values and locals, exactly if the slot may hold the type: a long not at the slot of a double parameter, and nothing inside a parameter. |
| `LocalVariables.CallAgrees` | src/main/java/com/github/cojac/FloatVariablesSorter.java:43-68 | The arguments of a call lie, by the replaced descriptor, exactly where renumbering looks for them. |
| `FloatVariablesSorter.RenumberSpacing` | src/main/java/com/github/cojac/FloatVariablesSorter.java:43-68 | Renumbering keeps the order of variables and so never gives two of them one number, never moves one up, and keeps two slots for two-slot variables, but for the slot of a double parameter that is followed by another. |
| `FloatReplacerMethodVisitor.InstrumentMethod` | src/main/java/com/github/cojac/FloatReplacerMethodVisitor.java:96-264 | The chain of visitors, fed with a body, writes exactly the code about which the simulation is proved. |
| `FloatReplacerMethodVisitor.FloatVariablesSorter.constructor` | src/main/java/com/github/cojac/FloatVariablesSorter.java:43-68 | The loop leaves in each cell of the mapping the number of a parameter after replacement, -1 elsewhere. |
| `FloatReplacerMethodVisitor.FloatVariablesSorter.RemapFirstFrame` | src/main/java/com/github/cojac/FloatVariablesSorter.java:134-139 | The lookup is the renumbering. |
| `FloatReplacerMethodVisitor.ReplaceFloatsInstrumenter.Instrument` | src/main/java/com/github/cojac/instrumenters/ReplaceFloatsInstrumenter.java:140-155 | Emits the wrapper call, the constant and its conversion, or the return of a reference, and keeps the analyzer in step. |
| `FloatReplacerMethodVisitor.FloatReplacerMethodVisitor.VisitInsn` | src/main/java/com/github/cojac/FloatReplacerMethodVisitor.java:96-126 | Writes what the specification emits for the instruction, given the analyzer's top of the stack. |
| `FloatReplacerMethodVisitor.FloatReplacerMethodVisitor.VisitVarInsn` | src/main/java/com/github/cojac/FloatReplacerMethodVisitor.java:197-206 | The same for loads and stores. |
| `FloatReplacerMethodVisitor.FloatReplacerMethodVisitor.VisitMethodInsn` | src/main/java/com/github/cojac/FloatReplacerMethodVisitor.java:128-139 | The same for calls: INVOKEVIRTUAL with a double in the descriptor is proxied, any other opcode or descriptor gets the call with the replaced descriptor. |
| `FloatReplacerMethodVisitor.FloatReplacerMethodVisitor.VisitLdcInsn` | src/main/java/com/github/cojac/FloatReplacerMethodVisitor.java:253-263 | The same for constants. |
| `Descriptors.AfterFloatReplacement` | src/main/java/com/github/cojac/instrumenters/InvokableMethod.java:76-95 | The replaced type is never float or double, keeps void and arrays, and has the same size but for double. |
| `Descriptors.ReplacedExactly` | src/main/java/com/github/cojac/instrumenters/InvokableMethod.java:76-95 | A type is left alone exactly if no float or double occurs in it; replacing twice is replacing once. |
| `Descriptors.ReplacesFloatMethodDescription` | src/main/java/com/github/cojac/instrumenters/InvokableMethod.java:64-73 | The loop replaces every argument type and the result type. |
| `Descriptors.ConversionContext.constructor` | src/main/java/com/github/cojac/instrumenters/ConversionContext.java:59-99 | The loops leave the replaced types, the positions that need conversion and those of arrays, and no others. |
| `ConvertMethodProof.ConvertMethodReturns` | src/main/java/com/github/cojac/instrumenters/FloatProxyMethod.java:407-489 | For every signature the generated method returns n+1 cells: converted argument i, or the pair of old and new array, in cell i, all originals boxed in cell n; it changes nothing that was there. |
| `ProxyCorrectness.DirectCallCorrect` | src/main/java/com/github/cojac/instrumenters/FloatProxyMethod.java:95-131 | For every signature: receiver and arguments are replaced by the converted result, the callee is called once with the converted receiver and each argument converted in order, each array is merged back once, and all lower cells stay. |
| `ProxyCorrectness.BetterCallCorrect` | src/main/java/com/github/cojac/instrumenters/FloatProxyMethod.java:142-242 | Both paths run to the end label. Where a method is found it is invoked with the boxed, unconverted arguments; otherwise the fallback calls as the direct path does. |
| `ProxyPaths.ProxyCallRuns` | src/main/java/com/github/cojac/instrumenters/FloatProxyMethod.java:95-131 | For every opcode, whether reflection is asked for or not: the emitted code runs to its end, leaves what is below receiver and arguments, and calls once: by reflection where a method is looked up and found, else with converted receiver and arguments in order; then each array is merged once. |
| `ProxyPaths.ReflectionExactly` | src/main/java/com/github/cojac/instrumenters/FloatProxyMethod.java:95-101 | A method is looked up, or invoked by reflection, exactly for INVOKEINTERFACE, and for INVOKEVIRTUAL where that is asked for. |
| `ProxyPaths.ReceiverTyped` | src/main/java/com/github/cojac/instrumenters/FloatProxyMethod.java:353-375 | The receiver of a virtual call has the type of the original owner; that of other calls is left alone. |
| `ProxyPaths.PassedExactly` | src/main/java/com/github/cojac/instrumenters/FloatProxyMethod.java:407-489 | An argument is passed as it is exactly if its type has no float or double and it is no object, or array of objects, of a method that looks for numbers among them. |
| `ProxyPaths.DeliveredExactly` | src/main/java/com/github/cojac/instrumenters/FloatProxyMethod.java:394-406 | A result is delivered as it is exactly if its type has no float or double and is not made of objects, or it is an array of Float or Double. |
| `ProxyPaths.MergedTyped` | src/main/java/com/github/cojac/instrumenters/FloatProxyMethod.java:502-537 | Every merge is from an array of the original type into one of the replaced type. |
| `ProxyCorrectness.SameShape` | src/main/java/com/github/cojac/instrumenters/FloatProxyMethod.java:142-242 | At the end label both paths have left stacks of the same types exactly if the method does not return an array of Float or Double. |
| `ProxyCorrectness.ResultTypedExactly` | src/main/java/com/github/cojac/instrumenters/FloatProxyMethod.java:394-405 | A converted result has the type that the rewritten caller expects exactly if it is no array of Float or Double. |
| `ProxiedCalls.ProxiedCallIsCall` | src/main/java/com/github/cojac/instrumenters/FloatProxyMethod.java:142-242 | Where a public method is found, the code of a proxied call has the effect of the one instruction in the simulation: operands of the replaced types become the result of the replaced type, and the method is called once, on the receiver, with the arguments as they were on the stack. |
| `ProxiedCalls.FallbackCallsOriginal` | src/main/java/com/github/cojac/instrumenters/FloatProxyMethod.java:142-242 | Where none is found, the call made is of the original descriptor. |
| `ProxiedCalls.ProxiedExactly` | src/main/java/com/github/cojac/instrumenters/FloatProxyMethod.java:282-294 | The generator asks for conversions exactly where the rewriting of the simulation proxies a call. |
| `ProxiedCalls.NeedsExactly` | src/main/java/com/github/cojac/instrumenters/FloatProxyMethod.java:282-294 | A call is left alone exactly if descriptor and class of the receiver stay as they are, it does not clone, and no numbers are disguised as objects. |
| `ProxyCallProof.Explodes` | src/main/java/com/github/cojac/instrumenters/FloatProxyMethod.java:316-351 | The array of arguments on top becomes all converted arguments in order, wide ones included. |
| `ProxyCallProof.MergesRun` | src/main/java/com/github/cojac/instrumenters/FloatProxyMethod.java:513-541 | Each listed array pair is merged, in order, and the stack is as before. |
| `FloatProxyMethod.Generator.ProxyCall` | src/main/java/com/github/cojac/instrumenters/FloatProxyMethod.java:95-131 | Writes step by step the code of which `ProxyCallRuns` and `ReflectionExactly` speak, with the conversion method that the class has for these replaced types: its own for the first site. |
| `FloatProxyMethod.Generator.ProxyCallBetterWithVars` | src/main/java/com/github/cojac/instrumenters/FloatProxyMethod.java:142-242 | The same for the path that tries the instrumented method first. |
| `FloatProxyMethod.Generator.CreateConvertMethod` | src/main/java/com/github/cojac/instrumenters/FloatProxyMethod.java:407-489 | The loop over arguments writes the conversion method, once for each list of replaced types. |
| `FloatProxyMethod.ExplodeArguments` | src/main/java/com/github/cojac/instrumenters/FloatProxyMethod.java:316-351 | The loop writes the code proved by `Explodes`. |
| `FloatProxyMethod.CheckArrays` | src/main/java/com/github/cojac/instrumenters/FloatProxyMethod.java:502-543 | The loop writes one merge for each array parameter, whatever the order of the map's keys. |
| `FloatProxyMethod.MaybeConvertTarget` | src/main/java/com/github/cojac/instrumenters/FloatProxyMethod.java:353-375 | Converts the receiver under the array exactly for virtual calls on types with floats or doubles. |
| `SharedConversion.SharedExactly` | src/main/java/com/github/cojac/instrumenters/FloatProxyMethod.java:407-411 | Two sites with the same replaced types have the same code of their conversion methods exactly if they have the same original types and treat plain objects alike. |
| `SharedConversion.SharedCallIsOwn` | src/main/java/com/github/cojac/instrumenters/FloatProxyMethod.java:407-411 | At such a site the emitted code is its own. |
| `SharedCalls.SharedDirectExactly` | src/main/java/com/github/cojac/instrumenters/FloatProxyMethod.java:407-411 | A site that runs with the conversion method of another one has its own outcome on the direct path exactly if, for each argument, the original types are equal up to boxing of floats and doubles, and plain objects are treated alike. |
| `SharedCalls.SharedBetterExactly` | src/main/java/com/github/cojac/instrumenters/FloatProxyMethod.java:407-411 | The same for the path that tries the instrumented method first; if that is found, any conversion method will do. |
| `SharedCalls.SharedDirectRuns` | src/main/java/com/github/cojac/instrumenters/FloatProxyMethod.java:316-351 | What happens otherwise: arguments of other types stop the run at a cast; plain objects are passed as the other site passes its own. |
| `SharedCalls.ArraysOfFloatStop` | src/main/java/com/github/cojac/instrumenters/FloatProxyMethod.java:407-411 | A call of f(float[]) with the conversion method made for g(Float[]) stops. |
| `ReverseAutodiff.Node.BackPropagate` | src/main/java/com/github/cojac/models/wrappers/WrapperAutodiffReverse.java:131-146 | On any shared graph, adds to the adjoint of each node delta times the sum over all paths of the products of local derivatives; skipping zeros loses nothing; unreached nodes stay. |
| `ReverseAutodiff.Node.BackReset` | src/main/java/com/github/cojac/models/wrappers/WrapperAutodiffReverse.java:137-151 | Every reachable adjoint becomes 0, and no other changes. |
| `ReverseAutodiff.ResetAndCompute` | src/main/java/com/github/cojac/models/wrappers/WrapperAutodiffReverse.java:164-182 | After reset and compute every reachable adjoint is the path sum, whatever it was before. |
| `ReverseAutodiff.PathsExact` | src/main/java/com/github/cojac/models/wrappers/WrapperAutodiffReverse.java:131-146 | The paths summed over are those that lead from one node to the other, each once. |
| `AutodiffAgreement.ReverseMode` | src/main/java/com/github/cojac/models/wrappers/WrapperAutodiffReverse.java:60-109 | For every program the adjoint of each node is what the chain rule gives for the derivatives that reverse mode records. For an input it is the derivative that forward mode computes when that input alone is seeded, provided that at each quotient u / v the result depends on, u'(v² - 1) = 2uv'v holds of the derivatives that forward mode has there. |
| `AutodiffAgreement.ForwardIsChainRule` | src/main/java/com/github/cojac/models/wrappers/WrapperAutodiff.java:44-173 | Under the same condition on each quotient, forward mode computes what the chain rule gives for the derivatives that reverse mode records. |
| `AutodiffAgreement.ModesDiffer` | src/main/java/com/github/cojac/models/wrappers/WrapperAutodiffReverse.java:84 | For 1 / v at v = 2 the condition fails, and the modes give -1 and 1. |
| `AutodiffSlope.ForwardSlopeExactly` | src/main/java/com/github/cojac/models/wrappers/WrapperAutodiff.java:44-173 | d is the slope of a result in the seeded input, by the definition with a quadratic bound, exactly if forward mode computes d: for every program whose functions are given with their slopes, whose minima and maxima have no ties, and whose quotients meet the condition of the next row. |
| `AutodiffSlope.QuotientSlopeExactly` | src/main/java/com/github/cojac/models/wrappers/WrapperAutodiff.java:44-173 | Of a quotient of such results forward mode gives the slope exactly if the divisor is 1 or -1, or the derivative is 0. |
| `AutodiffSlope.AdjointIsSlope` | src/main/java/com/github/cojac/models/wrappers/WrapperAutodiffReverse.java:60-109 | Where the modes agree, the adjoint is the slope, too. |
| `AutodiffSlope.ComputedValues` | src/main/java/com/github/cojac/models/wrappers/WrapperAutodiff.java:44-173 | What the operations compute: difference plus second operand, quotient times second operand and so on. |
| `AutodiffAgreement.BinaryBuild` | src/main/java/com/github/cojac/models/wrappers/WrapperAutodiffReverse.java:63-109 | A new node with the value and the two local derivatives; min and max build nodes, too. |
| `ForwardAutodiff.ForwardDivisionExactly` | src/main/java/com/github/cojac/models/wrappers/WrapperAutodiff.java:61-64 | The forward rule for quotients is right, for all derivatives of the operands, exactly if the divisor is 1 or -1. |
| `ForwardAutodiff.ForwardDivisionAt` | src/main/java/com/github/cojac/models/wrappers/WrapperAutodiff.java:61-64 | For given derivatives: exactly if the divisor is 1 or -1, or the derivative of the quotient is 0. |
| `AutodiffAgreement.ReverseDivisionExactly` | src/main/java/com/github/cojac/models/wrappers/WrapperAutodiffReverse.java:84 | The reverse rule for quotients is right exactly if the dividend is 0. |
| `AutodiffAgreement.ReverseDivisionAt` | src/main/java/com/github/cojac/models/wrappers/WrapperAutodiffReverse.java:84 | For given derivatives: exactly if the dividend or the derivative of the divisor is 0. |
| `AutodiffAgreement.DivisionAgreesExactly` | src/main/java/com/github/cojac/models/wrappers/WrapperAutodiffReverse.java:84 | The two rules agree exactly if the dividend is 0 and the divisor is 1 or -1. |
| `AutodiffAgreement.QuotientRulesAgreeExactly` | src/main/java/com/github/cojac/models/wrappers/WrapperAutodiffReverse.java:84 | For given derivatives u' and v': exactly if u'(v² - 1) = 2uv'v. |
| `LU.Factor` | oldPerfTests/src/perfs/scimark/LU.java:158-231 | In place, returns 0 exactly for a regular matrix; then the packed factors stand for the original rows in the order recorded in `pivot`, pivots are not 0 and multipliers are at most 1. |
| `LU.FindPivot` | oldPerfTests/src/perfs/scimark/LU.java:169-178 | The row with the greatest entry of the column, by absolute value, at or below the diagonal. |
| `LU.EliminateColumn` | oldPerfTests/src/perfs/scimark/LU.java:197-227 | Scaling and the rank-one update: below the diagonal the column times the pivot is what it was, and the rest has lost multiplier times pivot row. |
| `LU.Solve` | oldPerfTests/src/perfs/scimark/LU.java:241-268 | The right-hand side becomes the solution x of A x = b, for the original A and b. |
| `LU.ForwardSubstitution` | oldPerfTests/src/perfs/scimark/LU.java:246-259 | With the exchanges done on the way, solves lower factor times y = permuted b. |
| `LU.BackSubstitution` | oldPerfTests/src/perfs/scimark/LU.java:261-267 | Solves upper factor times x = y. |
| `LuTheory.PermutedRowsAreProduct` | oldPerfTests/src/perfs/scimark/LU.java:158-231 | What the factorization keeps up to the end says that the permuted matrix is lower times upper factor. |
| `LuTheory.Eliminate` | oldPerfTests/src/perfs/scimark/LU.java:197-227 | One more column eliminated still stands for the same original matrix. |
| `LuTheory.ZeroPivotSingular` | oldPerfTests/src/perfs/scimark/LU.java:185-187 | Where no pivot is found, some vector other than zero is taken to zero. |
| `LuTheory.NonzeroPivotsRegular` | oldPerfTests/src/perfs/scimark/LU.java:185-187 | Where all pivots are found, only the zero vector is. |
| `JavaSort.Sort1` | oldPerfTests/src/perfs/JavaSortRunnable.java:40-91 | Terminates, sorts the part, keeps its elements, and changes nothing outside. |
| `JavaSort.Partition` | oldPerfTests/src/perfs/JavaSortRunnable.java:57-75 | Ends with v* (<v)* (>v)* v*, a rearrangement of the part. |
| `JavaSort.PartitionElementsToMiddle` | oldPerfTests/src/perfs/JavaSortRunnable.java:77-82 | The two block exchanges leave (<v)* v* (>v)*. |
| `JavaSort.VecSwap` | oldPerfTests/src/perfs/JavaSortRunnable.java:105-109 | The two blocks trade places. |
| `JavaSort.Med3` | oldPerfTests/src/perfs/JavaSortRunnable.java:114-118 | The index of the median of three. |
| `BitReversal.BitReverse` | oldPerfTests/src/perfs/scimark/FFT.java:199-234 | In place, complex number i is where its bit reversal was, for every power of two. |
| `BitReversal.Advance` | oldPerfTests/src/perfs/scimark/FFT.java:225-232 | The inner loop takes the reversal of i to that of i + 1, and terminates. |
| `BitReversal.ReversalReversesBits` | oldPerfTests/src/perfs/scimark/FFT.java:199-234 | Bit p of the reversal is bit b - 1 - p of the number. |
| `BitReversal.RearrangedTwice` | oldPerfTests/src/perfs/scimark/FFT.java:199-234 | Done twice it restores the data: it is a permutation and its own inverse. |
| `FloatInterval.AddContains` | src/main/java/com/github/cojac/interval/FloatInterval.java:221-225 | The exact sum of any two elements lies in the computed interval. |
| `FloatInterval.SubContains` | src/main/java/com/github/cojac/interval/FloatInterval.java:236-240 | The same for the difference. |
| `FloatInterval.MulContains` | src/main/java/com/github/cojac/interval/FloatInterval.java:251-257 | The same for the product, whatever the signs. |
| `FloatInterval.DivContains` | src/main/java/com/github/cojac/interval/FloatInterval.java:268-277 | The same for the quotient; there is no result exactly if the divisor contains 0. |
| `FloatInterval.AddTight` | src/main/java/com/github/cojac/interval/FloatInterval.java:221-225 | The computed sum reaches from the smallest exact sum to the greatest, and at most two ulps further on each side. |
| `FloatInterval.MulTight` | src/main/java/com/github/cojac/interval/FloatInterval.java:251-257 | The same for products, between the smallest and the greatest product of ends. |
| `FloatInterval.DivTight` | src/main/java/com/github/cojac/interval/FloatInterval.java:268-277 | The same for quotients. |
| `FloatInterval.RoundedTight` | src/main/java/com/github/cojac/interval/FloatInterval.java:584-586 | One ulp outwards of two rounded numbers reaches from one number to the other, and at most two ulps further. |
| `FloatingPoint.WithinOneUlp` | src/main/java/com/github/cojac/interval/FloatInterval.java:584-586 | A real number is at most one ulp of its rounding away, at powers of two and below the normal range as well. |
| `FloatingPoint.RoundingMonotone` | src/main/java/com/github/cojac/interval/FloatInterval.java:251-257 | Rounding to a nearest number keeps the order. |
| `IntervalModulo.ModuloContainsExactly` | src/main/java/com/github/cojac/interval/FloatInterval.java:554-574 | With quotients and results rounded to a nearest number: every remainder is contained exactly if quotients that are equal after rounding and the cast to int are equal when truncated exactly; no result exactly if the divisor contains 0. |
| `IntervalModulo.FractionsTell` | src/main/java/com/github/cojac/interval/FloatInterval.java:558-561 | So it is where the first cast quotient is 0, or all four rounded quotients have a fraction and fit an int. |
| `IntervalModulo.ModuloTight` | src/main/java/com/github/cojac/interval/FloatInterval.java:554-574 | The result goes no further than the greatest divisor and has no numbers on a side of zero where there are no dividends; where the cast quotients are equal, its ends are remainders of ends. |
| `IntervalModulo.MissesZero` | src/main/java/com/github/cojac/interval/FloatInterval.java:558-566 | [25165826; 25165828] modulo 8388609 comes out as [1; 8388608], however ties are rounded, though 0 is the remainder of 25165827. |
| `IntervalModulo.MissesHalf` | src/main/java/com/github/cojac/interval/FloatInterval.java:558-566 | [2^31; 2^31 + 256] modulo 1 comes out as [0; 0], though 1/2 is a remainder. |
| `FloatRemainder.UnitQuotient` | src/main/java/com/github/cojac/interval/FloatInterval.java:558-559 | A rounded quotient is at least 1, or at most -1, exactly if the quotient is: so its cast is 0 just where the truncated quotient is. |
| `FloatRemainder.RemainderIsNumber` | src/main/java/com/github/cojac/interval/FloatInterval.java:560-561 | The remainder of two floating-point numbers is one: `%` needs no rounding. |
| `PackedInterval.RoundTripExactly` | src/main/java/com/github/cojac/models/behaviours/DoubleIntervalBehaviour.java:161-177 | Unpacking gives the same lower bound and an upper bound that is not smaller, exactly if the gap is finite; the bits of the gap grow by 3 at most. |
| `PackedInterval.LargestIsLost` | src/main/java/com/github/cojac/models/behaviours/DoubleIntervalBehaviour.java:161-177 | The interval between the largest floats is lost, however ties are rounded. |
| `PackedInterval.WideningExact` | src/main/java/com/github/cojac/models/behaviours/DoubleIntervalBehaviour.java:168-170 | The 35 high bits of the double hold the float exactly, numbers below the normal range included. |
| `SymbolicExpression.Evaluate` | src/main/java/com/github/cojac/models/wrappers/SymbolicExpression.java:132-144 | Wherever plain evaluation gives a number, evaluation in any mode gives it, and terminates. |
| `SymbolicExpression.EvaluateTermsSmarter` | src/main/java/com/github/cojac/models/wrappers/SymbolicExpression.java:154-160 | The same for sums and differences, flattened, sorted and summed. |
| `SymbolicExpression.EvaluateProductSmarter` | src/main/java/com/github/cojac/models/wrappers/SymbolicExpression.java:146-152 | The same for products with a quotient that cancels. |
| `SymbolicExpression.FlattenedTermList` | src/main/java/com/github/cojac/models/wrappers/SymbolicExpression.java:101-122 | The terms add up to the tree at every x; new negations included, they are no larger than it, and smaller than a sum or difference. |
| `SymbolicExpression.SmartSum` | src/main/java/com/github/cojac/models/wrappers/SymbolicExpression.java:162-188 | Sorting and Kahan's correction do not change the sum. |
| `SymbolicExpression.BuildMeans` | src/main/java/com/github/cojac/models/wrappers/SymbolicExpression.java:77-91 | With or without folding, a built tree means its operator applied to the meanings of its operands. |
| `SymbolicExpression.CachedValue` | src/main/java/com/github/cojac/models/wrappers/SymbolicExpression.java:79-81 | A value computed at construction is that of any evaluation. |
| `SymbolicOperators.BuiltSum` | src/main/java/com/github/cojac/models/wrappers/SymbolicExpression.java:209-210 | On built trees: sum less second operand, and difference plus second operand, are the first one. |
| `SymbolicOperators.BuiltProduct` | src/main/java/com/github/cojac/models/wrappers/SymbolicExpression.java:211-212 | The product; quotient times second operand is the first one, and there is none exactly for 0. |
| `SymbolicOperators.BuiltRemainder` | src/main/java/com/github/cojac/models/wrappers/SymbolicExpression.java:213 | The remainder has the sign of the first operand, is smaller than the second, and differs from the first by an integer multiple of the second. |
| `SymbolicOperators.BuiltBounds` | src/main/java/com/github/cojac/models/wrappers/SymbolicExpression.java:231-232 | Minimum and maximum bound both operands and are one of them. |
| `SymbolicOperators.BuiltPower` | src/main/java/com/github/cojac/models/wrappers/SymbolicExpression.java:233 | x^1 is x, and x^(m+n) is x^m times x^n. |
| `SymbolicOperators.BuiltHypot` | src/main/java/com/github/cojac/models/wrappers/SymbolicExpression.java:234 | The square is the sum of the squares of the operands. |
| `SymbolicOperators.BuiltUnary` | src/main/java/com/github/cojac/models/wrappers/SymbolicExpression.java:214-230 | Negation, absolute value, and the function itself for all other operators with one operand. |
| `SymbolicOperators.NaNStays` | src/main/java/com/github/cojac/models/wrappers/SymbolicExpression.java:208-234 | Of what is no number only the power with exponent 0 is one. |
| `SymbolicOperators.FoldsExactly` | src/main/java/com/github/cojac/models/wrappers/SymbolicExpression.java:77-91 | A tree becomes a constant exactly if the unknown does not occur in it and constant trees are not kept. |
| `SymbUtils.SlopeExactly` | src/main/java/com/github/cojac/symbolic/SymbUtils.java:29-67 | Wherever a rational tree has a value, d is its slope (with a quadratic bound on the rest) exactly if the derived tree has value d. |
| `SymbUtils.DerivateIsDerivative` | src/main/java/com/github/cojac/symbolic/SymbUtils.java:29-67 | There the derived tree has a value, and that is the slope; with or without folding. |
| `SymbUtils.CloseQuotient` | src/main/java/com/github/cojac/symbolic/SymbUtils.java:57-63 | The remainder of a quotient is bounded explicitly, near any point where the divisor is not 0. |
| `DeltaDebugger.DeltaDebugger.DdMin` | src/main/java/com/github/cojac/deltadebugging/DeltaDebugger.java:47-76 | Terminates with a subset from which no element can be removed, valid if the set was, within the bound on queries: one of the first part that is valid, or else of the set without the first part that can be removed; and what the behaviours file holds on return. |
| `DeltaDebugger.DeltaDebugger.LaunchDeltaDebugging` | src/main/java/com/github/cojac/deltadebugging/DeltaDebugger.java:38-42 | From k instructions at most 3k(k+1) queries; for a monotone oracle no proper subset of the result is valid; within the first half of the instructions if that suffices. |
| `DeltaDebugger.DeltaDebugger.DebugProgram` | src/main/java/com/github/cojac/deltadebugging/App.java:100-129 | The behaviours file describes the result at the end, which is empty where nothing has to be ignored; success is reported exactly if the result is valid. |
| `DeltaDebugger.SplitSet` | src/main/java/com/github/cojac/deltadebugging/DeltaDebugger.java:85-106 | min(n, size) parts of consecutive elements, not empty, disjoint, with the set as union, of sizes that differ by one at most, the larger ones first. |
| `DeltaDebugger.MonotoneMinimal` | src/main/java/com/github/cojac/deltadebugging/DeltaDebugger.java:45-76 | For a monotone oracle, removing no single element is removing nothing. |
| `DeltaDebugger.TotalBound` | src/main/java/com/github/cojac/deltadebugging/DeltaDebugger.java:47-76 | The bound on queries, from granularity 2. |
| `ModifiedClassWriter.ModifiedClassWriter.GetCommonSuperClass` | src/main/java/com/github/cojac/ModifiedClassWriter.java:49-92 | The lowest common ancestor of two classes; for an interface the interface itself if the other type implements it, else Object. |
| `ModifiedClassWriter.ModifiedClassWriter.CommonAncestor` | src/main/java/com/github/cojac/ModifiedClassWriter.java:69-91 | Comparing the joined names from the end finds an ancestor of both that is below every other common ancestor. |
| `ModifiedClassWriter.ModifiedClassWriter.TypeImplements` | src/main/java/com/github/cojac/ModifiedClassWriter.java:138-156 | True exactly for an interface above the type, by any way up. |
| `ModifiedClassWriter.ModifiedClassWriter.TypeAncestors` | src/main/java/com/github/cojac/ModifiedClassWriter.java:113-122 | The names of the chain up to Object, each after a ';'. |
| `ModifiedClassWriter.AnswerIsCommonSupertype` | src/main/java/com/github/cojac/ModifiedClassWriter.java:49-92 | Whatever the two types are, the answer is a supertype of both. |
| `ModifiedClassWriter.OrderMattersExactly` | src/main/java/com/github/cojac/ModifiedClassWriter.java:56-68 | Exchanging the types changes the answer exactly for two interfaces of which one extends the other. |
| `ModifiedClassWriter.OrderMatters` | src/main/java/com/github/cojac/ModifiedClassWriter.java:56-68 | Two interfaces with two answers. |
| `SymbPattern.MatchesExactly` | src/main/java/com/github/cojac/profiler/SymbPattern.java:46-79 | The search succeeds exactly if the tree, with operands of some commutative operators exchanged, fits the pattern and the search ends without exception; for patterns that cause none, exactly if the tree fits. |
| `PatternMeaning.MatchMeans` | src/main/java/com/github/cojac/profiler/SymbPattern.java:46-79 | A tree that is matched has, for every value of the unknown, the value of a tree that fits the pattern as it stands. |
| `PatternMeaning.ClosedMatches` | src/main/java/com/github/cojac/profiler/SymbPattern.java:46-79 | A pattern without wildcards matches nothing but trees with the value that it draws. |
| `PatternMeaning.CommutativeExactly` | src/main/java/com/github/cojac/models/wrappers/SymbolicExpression.java:208-234 | Operands of a binary operator are exchanged exactly if it commutes for all numbers, and is not minimum or maximum. |
| `PatternMeaning.OperandsExchanged` | src/main/java/com/github/cojac/profiler/SymbPattern.java:67-76 | A sum, product or hypotenuse is matched with its operands the other way round, too. |
| `PatternMeaning.MinimumIsMissed` | src/main/java/com/github/cojac/profiler/SymbPattern.java:67-76 | min(2, 1) has the value of min(1, 2) and is no match for it. |
| `PatternMeaning.ExponentialsFound` | src/main/java/com/github/cojac/profiler/Recommendation.java:113-133 | The pattern of expm1 matches exp(x) - 1, with the value of x, and not 1 - exp(x). |
| `PatternMeaning.ConstantsMatchExactly` | src/main/java/com/github/cojac/profiler/SymbPattern.java:63-65 | A constant matches the same number, and NaN nothing. |
| `PatternMeaning.AnythingMatches` | src/main/java/com/github/cojac/profiler/SymbPattern.java:47-54 | A wildcard that is no goal matches every tree, and a missing operand. |
| `PatternMeaning.SavedOperands` | src/main/java/com/github/cojac/profiler/SymbPattern.java:21-44 | The left value of a goal is that of the first operand, or of the node for a leaf and for a goal for anything; the right value is that of the second operand. |
| `SymbPattern.Match` | src/main/java/com/github/cojac/profiler/SymbPattern.java:46-79 | Returns the outcome of the search; for one goal the saved values are those of the node it has in the ordering that succeeded. |
| `SymbPattern.GoalNodeFits` | src/main/java/com/github/cojac/profiler/SymbPattern.java:67-76 | That node stands at the goal's place in a rearrangement that fits, even after a first ordering failed. |
| `SymbPattern.NoException` | src/main/java/com/github/cojac/profiler/SymbPattern.java:39-79 | Some well-formed tree makes the search end in the exception exactly if in the pattern a goal for anything stands as second operand of a unary operator, where the search gets to it. This holds of every pattern. |
| `SymbPattern.MatchPattern` | src/main/java/com/github/cojac/profiler/SymbPattern.java:81-90 | The goal's values exactly if the tree fits up to order and the validator accepts it, and then those of its node. |

## Left out

- SameResults: programs compute on ints, longs, doubles and opaque references, doubles as exact reals without signed zeros, infinities and NaN; arrays, fields, exceptions and `float` are not in the modelled bytecode, and a method that is called is one that is rewritten, found by its name (overriding, overloading and null receivers are not modelled). A proxied call is one instruction (`ProxiedCallIsCall`); in the fragment it calls a public method, while the analyzer has no wide entry above a wrapper under the operands and no wide variable below a wrapper (`FramedExactly`, `RelocatedExactly`). The conditions of `StackExact`, `StoreExact` and (for frames) `FrameExact` bound the fragment as well.
- InstrumentMethod: statistics counters, debug information, `invokedynamic`, field, type and array instructions of the visitors are not modelled.
- DirectCallCorrect: the helpers that convert single values and arrays, and the merge, are names applied to values; what they do inside is not modelled. It is stated for a call site whose conversion method is its own; `SharedDirectExactly` is about the others.
- BetterCallCorrect: how a method is found by reflection is a parameter; the frames that are handed to the analyzer around the two paths are those of `FramedExactly` and `RelocatedExactly`.
- ReverseMode: arithmetic is exact, functions of one argument come with their derivative as given, and programs have no division by zero; `drem`, `math_abs`, `math_pow`, `math_toRadians` and `math_toDegrees` are not included.
- Factor: square matrices and exact arithmetic, as the code is used; growth of rounding errors is not modelled.
- BitReverse: lengths that are powers of two, the ones the transform accepts; the butterflies are not modelled.
- Sort1: `run` on an empty array reads an element that is not there; only arrays with an element are accepted.
- MulContains: exponents are not limited, so overflow is not modelled; nor are transcendental functions and `pow2` of intervals.
- ModuloContainsExactly: intervals with infinite or NaN ends are not modelled. That the quotients fit an int is not enough for it (`MissesZero`), so the condition of `FractionsTell` asks for fractions.
- RoundTripExactly: the reaction to unstable intervals, and conversions to text, are not modelled. Masks are arithmetic: clearing or reading the 29 low bits.
- Evaluate: exact arithmetic; None stands for what is not a number, and for powers whose exponent is no natural number. Functions of one argument but negation and absolute value, and the square root, are parameters.
- DerivateIsDerivative: constants, the unknown, sums, differences, products, quotients and negation; the rules for other functions need facts about them.
- ProxiedExactly: calls of `clone`, and of methods of Float and Double, are outside the rewritten classes.
- WrapperSimulates: of the wrappers only the one that holds a plain double.
- DdMin: the file is the set it describes, and running the program is a function of that set; traces are left out.
- GetCommonSuperClass: classes that cannot be read, and the exception for them, are not modelled.
- MatchPattern: `evaluate()` of the tree is a value that each node has.
- Native code for posits and rounding modes, class loading, the agent, JMX, XML, process launching, HTML and the command line are plumbing around other systems.
- `nativeCall` of the proxy generator passes a visitor that does not exist, and is not modelled.
