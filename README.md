# TeaVM analysis core and dev-server helpers, modelled in Dafny

TeaVM compiles JVM bytecode to JavaScript, WebAssembly and C. This project
models six pieces of it and proves properties of the models.

- **Fast dependency analysis** (`dependency.dfy`, module `FastDependency`).
  - The analysis is aggregated: every method variable, parameter, result,
    field and array item shares one *instances node*, and class values share
    one *classes node*.
  - One memoised *subtype node* per value type collects the instances of that
    type and its subtypes. Creating one defers a construction task. That task
    strips the array wrappers of the key, looks the class up, and connects the
    node to the subtype nodes of the superclass and of each interface, rewrapped
    to the same array degree.
  - The instances node carries one consumer. It forwards every type that
    arrives to the subtype node of that type.
  - Virtual-call consumers are memoised per method. Each one is attached, by a
    deferred task, to the subtype node of the callee's class.
  - A synchronized method links the monitor support methods.
  - The node class itself is not part of the model. It becomes an arena of
    numbered nodes. Each node holds a type set, out-edges and consumers. A set
    of pending deliveries records which types still have to flow.
  - The class invariant `Consistent` says: every non-pending type has reached
    every successor, every consumer and, at the instances node, its own
    subtype node; and both caches are memoised.
- **Devirtualization** (`devirtualization.dfy`). One pass over a method's
  blocks rewrites each virtual invocation in place when exactly one
  implementation is declared among the receiver's possible classes.
- **Dev-server command line** (`devserver.dfy`).
  - The cursor-based argument parser, with its error flag and default values.
  - How `main` turns the parsed options into server settings.
- **Dev-server code servlet paths** (`codeservlet.dfy`).
  - Normalisation of the served prefix.
  - Request-path lookup.
  - The mapping of changed `.class` files to class names.
  - Replacement of the served content.
- **C backend output files** (`outputfile.dfy`). The chunked comparison that
  decides whether a generated file changed, and the write it guards.
- **C backend method prologue and epilogue** (`codegen.dfy`, module
  `CodeGenerator`).
  - Parameter lists and local and temporary declarations.
  - The one-`case`-per-part async state machine.
  - Save and restore of locals on the fiber stack. Restore pops in exactly
    the reverse order of the pushes.
  - A qualifying local whose type is null makes the type switch throw
    NullPointerException. The model returns a `thrown` flag at that point and
    states what was printed before it.

`common.dfy` (module `Common`) holds what several modules share:
- value types, method references and class metadata;
- decimal rendering of naturals, with its round trip;
- string concatenation and joining.

Writers are modelled as appended `seq<string>`. Name providers and type
printers are function parameters.

## Model

| member | source | states |
|---|---|---|
| Common.NatToString | core/src/main/java/org/teavm/backend/c/generate/CodeGenerator.java:222 | String.valueOf of a natural: nonempty, all decimal digits, no leading zero |
| Common.NatToStringRoundTrip | core/src/main/java/org/teavm/backend/c/generate/CodeGenerator.java:222 | reading the digits back gives the number |
| Common.NatToStringInjective | core/src/main/java/org/teavm/backend/c/generate/CodeGenerator.java:222 | different numbers render differently, so `local_i` names are distinct |
| Common.ConcatAppend | core/src/main/java/org/teavm/backend/c/generate/CodeGenerator.java:191-196 | the text of two runs of printed fragments is the text of each, concatenated |
| Common.RootType | core/src/main/java/org/teavm/dependency/FastDependencyAnalyzer.java:130 | the root key is the object type of java.lang.Object |
| FastDependency.Innermost | core/src/main/java/org/teavm/dependency/FastDependencyAnalyzer.java:139-142 | stripping array wrappers ends at a non-array type |
| FastDependency.WrapInnermost | core/src/main/java/org/teavm/dependency/FastDependencyAnalyzer.java:137-150 | rewrapping the stripped type by the counted degree gives the key back |
| FastDependency.DegreeOfWrap | core/src/main/java/org/teavm/dependency/FastDependencyAnalyzer.java:147-150 | wrapping a non-array type d times has degree d and that innermost type |
| FastDependency.WrapEach | core/src/main/java/org/teavm/dependency/FastDependencyAnalyzer.java:153-157 | one key per interface, in order, each the interface's object type wrapped d times |
| FastDependency.AncestorsOfResolvable | core/src/main/java/org/teavm/dependency/FastDependencyAnalyzer.java:144-159 | for a resolvable class at degree d: the parent key first (only when there is a parent), then one key per interface in declared order, all wrapped d times |
| FastDependency.AncestorsOfUnresolvable | core/src/main/java/org/teavm/dependency/FastDependencyAnalyzer.java:144-145 | a class that does not resolve gets no ancestor key and so no edge, at any degree |
| FastDependency.AncestorsOfPrimitive | core/src/main/java/org/teavm/dependency/FastDependencyAnalyzer.java:161-163 | a primitive (array) connects only to the root key, that is, to the instances node |
| FastDependency.AncestorsKeepDegree | core/src/main/java/org/teavm/dependency/FastDependencyAnalyzer.java:138-158 | every ancestor key has the key's own degree, is an object type rewrapped exactly that many times, and names the parent or an interface |
| FastDependency.FlowAlongPath | core/src/main/java/org/teavm/dependency/FastDependencyAnalyzer.java:151-158 | once nothing is pending, a type at a node has reached every node along every path of connect edges from it |
| FastDependency.SubtypeFlow | core/src/main/java/org/teavm/dependency/FastDependencyAnalyzer.java:51-53 | once nothing is pending, a non-root type at the instances node has reached its own subtype node and everything connected from it |
| FastDependency.ConnectKeepsClosure | core/src/main/java/org/teavm/dependency/FastDependencyAnalyzer.java:151 | after connect, all closure facts hold again, with the types new to the target pending |
| FastDependency.AppendNodeKeepsClosure | core/src/main/java/org/teavm/dependency/FastDependencyAnalyzer.java:134 | a fresh empty node cached for a new key keeps every closure fact |
| FastDependency.NodesOf | core/src/main/java/org/teavm/dependency/FastDependencyAnalyzer.java:151-158 | the nodes connected to are, key by key, the ones getSubtypeNode answers |
| FastDependency.NodesOfExtends | core/src/main/java/org/teavm/dependency/FastDependencyAnalyzer.java:133 | a cache that only grows answers the same node for every key it already had |
| FastDependency.NodesOfAppend | core/src/main/java/org/teavm/dependency/FastDependencyAnalyzer.java:146-159 | the parent edge followed by the interface edges targets the parent's node then the interfaces' nodes |
| FastDependency.CountsSnoc | core/src/main/java/org/teavm/dependency/FastDependencyAnalyzer.java:136 | deferring one task adds one to the count of exactly its own key |
| FastDependency.CountBuildsAtLeast | core/src/main/java/org/teavm/dependency/FastDependencyAnalyzer.java:136 | two different logged construction tasks for one key count twice |
| FastDependency.CountAttachesAtLeast | core/src/main/java/org/teavm/dependency/FastDependencyAnalyzer.java:173 | two different logged attach tasks for one method count twice |
| FastDependency.OneTaskPerKey | core/src/main/java/org/teavm/dependency/FastDependencyAnalyzer.java:133-136 | with memoised caches, each key has a single logged construction task, naming the cached node; each method likewise has a single attach task, naming its cached consumer |
| FastDependency.MemoisedNewSubtypeNode | core/src/main/java/org/teavm/dependency/FastDependencyAnalyzer.java:133-136 | caching a new key together with its one construction task keeps the caches memoised |
| FastDependency.MemoisedNewConsumer | core/src/main/java/org/teavm/dependency/FastDependencyAnalyzer.java:171-175 | caching a new consumer together with its one attach task keeps the caches memoised |
| FastDependency.RangesGrow | core/src/main/java/org/teavm/dependency/FastDependencyAnalyzer.java:134 | adding nodes or consumers keeps every consumer and deferred task in range |
| FastDependency.RangesAppend | core/src/main/java/org/teavm/dependency/FastDependencyAnalyzer.java:136 | a new node with no consumers and a task in range keep everything in range |
| FastDependency.ConsistentNewSubtypeNode | core/src/main/java/org/teavm/dependency/FastDependencyAnalyzer.java:133-136 | getSubtypeNode's creating step keeps the whole invariant |
| FastDependency.ConsistentNewConsumer | core/src/main/java/org/teavm/dependency/FastDependencyAnalyzer.java:171-175 | getVirtualCallConsumer's creating step keeps the whole invariant |
| FastDependency.ConsistentPopTask | core/src/main/java/org/teavm/dependency/FastDependencyAnalyzer.java:136 | the first deferred task is in range and taking it off the queue keeps the invariant |
| FastDependency.ConsistentDischarge | core/src/main/java/org/teavm/dependency/FastDependencyAnalyzer.java:51-53 | a type that reached every successor, every consumer and (at the instances node) its subtype node is no longer pending |
| FastDependency.StripArrays | core/src/main/java/org/teavm/dependency/FastDependencyAnalyzer.java:137-142 | the while loop ends at the innermost type with the array degree counted, and rewrapping gives the key |
| FastDependency.ArrayOf | core/src/main/java/org/teavm/dependency/FastDependencyAnalyzer.java:147-150 | the for loop applies arrayOf exactly degree times |
| FastDependency.CaughtExact | core/src/main/java/org/teavm/dependency/FastDependencyAnalyzer.java:67-71 | a class is linked for a block iff one of its try/catch entries names it; null entries are skipped |
| FastDependency.CaughtClassesExact | core/src/main/java/org/teavm/dependency/FastDependencyAnalyzer.java:64-72 | a class is linked iff some block has a try/catch of it |
| FastDependency.MonitorMethodsLinked | core/src/main/java/org/teavm/dependency/FastDependencyAnalyzer.java:85-97 | the sync enter and exit are always linked; the async ones iff async is supported; the last one linked is the sync exit |
| FastDependency.CreateNode | core/src/main/java/org/teavm/dependency/FastDependencyAnalyzer.java:99-127 | class-value requests get the classes node and every other request gets the instances node |
| FastDependency.MethodDependency.constructor | core/src/main/java/org/teavm/dependency/FastDependencyAnalyzer.java:57-77 | a record holds its method (read at line 58) and has no variable nodes until processMethod allocates and fills them at lines 74-77 |
| FastDependency.Analyzer.constructor | core/src/main/java/org/teavm/dependency/FastDependencyAnalyzer.java:48-53 | two nodes, the dispatch consumer on the instances node, empty caches and queue, invariant established |
| FastDependency.Analyzer.Propagate | core/src/main/java/org/teavm/dependency/FastDependencyAnalyzer.java:52 | a type new to the node is added and becomes pending; a known type changes nothing |
| FastDependency.Analyzer.Connect | core/src/main/java/org/teavm/dependency/FastDependencyAnalyzer.java:151 | the edge is appended and the source's types flow to the target, the new ones pending |
| FastDependency.Analyzer.AddConsumer | core/src/main/java/org/teavm/dependency/FastDependencyAnalyzer.java:174 | the consumer is appended to the node and receives the node's current types |
| FastDependency.Analyzer.GetSubtypeNode | core/src/main/java/org/teavm/dependency/FastDependencyAnalyzer.java:129-136 | java.lang.Object gives the instances node and caches nothing; a cached key gives its node and changes nothing; a new key gets a fresh node, cached, with exactly one construction task deferred |
| FastDependency.Analyzer.GetVirtualCallConsumer | core/src/main/java/org/teavm/dependency/FastDependencyAnalyzer.java:170-178 | memoised per method: a cached method gives its consumer unchanged; a new one gets a fresh consumer for that method, with exactly one attach task deferred |
| FastDependency.Analyzer.NewSubtypeNode | core/src/main/java/org/teavm/dependency/FastDependencyAnalyzer.java:133-136 | a new key gets a fresh empty node numbered after the existing ones, cached for the key, with exactly its construction task deferred and logged; the invariant is kept and nothing else changes |
| FastDependency.Analyzer.NewVirtualCallConsumer | core/src/main/java/org/teavm/dependency/FastDependencyAnalyzer.java:171-176 | a new method gets a fresh consumer with nothing received, cached for the method, with exactly its attach task deferred and logged; the invariant is kept and nothing else changes |
| FastDependency.Analyzer.ConnectToSubtypeNode | core/src/main/java/org/teavm/dependency/FastDependencyAnalyzer.java:151 | one edge from the node to the subtype node of the key; no other node's edges change |
| FastDependency.Analyzer.ConnectParent | core/src/main/java/org/teavm/dependency/FastDependencyAnalyzer.java:146-152 | one edge to the parent's subtype node at the degree, only when there is a parent |
| FastDependency.Analyzer.ConnectInterfaces | core/src/main/java/org/teavm/dependency/FastDependencyAnalyzer.java:153-159 | one edge per interface, in declared order, to its subtype node at the degree |
| FastDependency.Analyzer.ConnectNextInterface | core/src/main/java/org/teavm/dependency/FastDependencyAnalyzer.java:153-158 | one interface: the node's edges gain exactly the edge to the subtype node of the interface at the degree, and every key handled so far still resolves |
| FastDependency.Analyzer.ConnectClassAncestors | core/src/main/java/org/teavm/dependency/FastDependencyAnalyzer.java:144-160 | the edges of a resolvable class: parent first, then interfaces |
| FastDependency.Analyzer.RunBuildSubtypeNode | core/src/main/java/org/teavm/dependency/FastDependencyAnalyzer.java:136-164 | the construction task appends to the node exactly the nodes of its ancestor keys, in order, and touches no other node's edges |
| FastDependency.Analyzer.RunAttachVirtualCall | core/src/main/java/org/teavm/dependency/FastDependencyAnalyzer.java:173-175 | the consumer is appended to the subtype node of the callee's class and receives that node's types |
| FastDependency.Analyzer.RunNextTask | core/src/main/java/org/teavm/dependency/FastDependencyAnalyzer.java:136-173 | the first deferred task runs (first in, first out) with the whole effect of its kind: the construction task deferred at line 136 connects its node and leaves other nodes' edges alone; the attach task deferred at line 173 adds the consumer to its node only and hands it that node's types |
| FastDependency.Analyzer.GiveToConsumer | core/src/main/java/org/teavm/dependency/FastDependencyAnalyzer.java:172-174 | a virtual-call consumer records the type it is given |
| FastDependency.Analyzer.Dispatch | core/src/main/java/org/teavm/dependency/FastDependencyAnalyzer.java:51-53 | the instances node's consumer puts a non-root type into its own subtype node |
| FastDependency.Analyzer.DeliverToSuccessors | core/src/main/java/org/teavm/dependency/FastDependencyAnalyzer.java:151-162 | a delivered type reaches every successor; only that type is added, only where it was missing |
| FastDependency.Analyzer.Consume | core/src/main/java/org/teavm/dependency/FastDependencyAnalyzer.java:51-53 | one consumer: a virtual-call consumer receives the type, the dispatch consumer puts a non-root type into its own subtype node; only that type is added anywhere |
| FastDependency.Analyzer.DeliverToConsumers | core/src/main/java/org/teavm/dependency/FastDependencyAnalyzer.java:51-53 | a delivered type reaches every virtual-call consumer and, at the instances node, its own subtype node |
| FastDependency.Analyzer.Deliver | core/src/main/java/org/teavm/dependency/FastDependencyAnalyzer.java:51-53 | one pending delivery completes: the type reaches successors, consumers and its subtype node; it is then no longer pending; types only grow; new pending deliveries are of that type only |
| FastDependency.Analyzer.LinkClass | core/src/main/java/org/teavm/dependency/FastDependencyAnalyzer.java:69 | the class is recorded as linked |
| FastDependency.Analyzer.LinkMethod | core/src/main/java/org/teavm/dependency/FastDependencyAnalyzer.java:87 | the method is recorded as linked and used |
| FastDependency.Analyzer.LinkCaughtClasses | core/src/main/java/org/teavm/dependency/FastDependencyAnalyzer.java:64-72 | every non-null exception type is linked, block by block, in order |
| FastDependency.Analyzer.ProcessAsyncMethod | core/src/main/java/org/teavm/dependency/FastDependencyAnalyzer.java:85-97 | links exactly the monitor methods for the async setting, in source order |
| FastDependency.Analyzer.ProcessMethod | core/src/main/java/org/teavm/dependency/FastDependencyAnalyzer.java:56-83 | a method with a body gets a fresh variable-node array with one slot per program variable, all the instances node, and its caught classes linked; a synchronized method links the monitor methods; nothing else changes |
| FastDependency.Analyzer.Cleanup | core/src/main/java/org/teavm/dependency/FastDependencyAnalyzer.java:186-190 | both caches are emptied and nothing else changes |
| Devirtualization.Implementations | teavm-core/src/main/java/org/teavm/optimization/Devirtualization.java:67-76 | contains (className, desc) iff the name is among the receiver's classes and that class resolves and declares desc; never larger than the input |
| Devirtualization.ImplementationsDependOnlyOnClassSet | teavm-core/src/main/java/org/teavm/optimization/Devirtualization.java:67-76 | duplicates and order in the class names do not matter |
| Devirtualization.TheElement | teavm-core/src/main/java/org/teavm/optimization/Devirtualization.java:61 | implementations.iterator().next() of a one-element set is its element |
| Devirtualization.SingletonElement | teavm-core/src/main/java/org/teavm/optimization/Devirtualization.java:59-61 | a one-element set containing x is {x} |
| Devirtualization.RewriteExactlyOnSingleTarget | teavm-core/src/main/java/org/teavm/optimization/Devirtualization.java:49-62 | an instruction changes iff it is a virtual invoke with exactly one implementation; it then becomes a special call of that implementation on the same receiver |
| Devirtualization.TwoImplementationsStayVirtual | teavm-core/src/main/java/org/teavm/optimization/Devirtualization.java:59 | two declaring classes in the receiver's set leave the invoke unchanged |
| Devirtualization.OneImplementationBinds | teavm-core/src/main/java/org/teavm/optimization/Devirtualization.java:59-62 | a single declaring class binds the call to that class's method |
| Devirtualization.DevirtualizeBlock | teavm-core/src/main/java/org/teavm/optimization/Devirtualization.java:48-63 | the rewrite keeps the block's length |
| Devirtualization.DevirtualizeBlocks | teavm-core/src/main/java/org/teavm/optimization/Devirtualization.java:41-64 | no information means no change; otherwise every block keeps its shape |
| Devirtualization.RewriteKeepsAnalyzable | teavm-core/src/main/java/org/teavm/optimization/Devirtualization.java:60-61 | a rewritten instruction keeps its receiver, so it can be analysed again |
| Devirtualization.DevirtualizeIdempotent | teavm-core/src/main/java/org/teavm/optimization/Devirtualization.java:53-61 | a second pass changes nothing |
| Devirtualization.Program.constructor | teavm-core/src/main/java/org/teavm/optimization/Devirtualization.java:46-47 | a program holds the given basic blocks |
| Devirtualization.Devirtualizer.constructor | teavm-core/src/main/java/org/teavm/optimization/Devirtualization.java:35-38 | the pass holds the analysis results and the class source it is given |
| Devirtualization.Program.Replace | teavm-core/src/main/java/org/teavm/optimization/Devirtualization.java:60-61 | exactly one instruction of one block is replaced |
| Devirtualization.Devirtualizer.Apply | teavm-core/src/main/java/org/teavm/optimization/Devirtualization.java:40-65 | the in-place pass leaves the program equal to the pure rewrite of the old program |
| Devirtualization.Devirtualizer.RewriteBlock | teavm-core/src/main/java/org/teavm/optimization/Devirtualization.java:47-63 | the inner loop rewrites block i in place and no other block |
| DevServer.ParseInt | tools/devserver/src/main/java/org/teavm/devserver/DevServer.java:148 | Integer.parseInt: a result is in 32-bit range, from a digit string with at most one leading sign and at least one digit |
| DevServer.ParseIntSignedDigits | tools/devserver/src/main/java/org/teavm/devserver/DevServer.java:148 | conversely, a sign (none, "+" or "-") and at least one digit parse to the signed decimal value exactly when it is in range, and throw otherwise |
| DevServer.LeadingZeroIgnored | tools/devserver/src/main/java/org/teavm/devserver/DevServer.java:148 | a leading zero does not change the value of a digit string |
| DevServer.ParseIntRoundTrip | tools/devserver/src/main/java/org/teavm/devserver/DevServer.java:148 | the decimal text of a natural, with no sign, "+" or "-" in front, parses to the signed number when it is in the range of int, and throws otherwise |
| DevServer.ParseIntOfDecimal | tools/devserver/src/main/java/org/teavm/devserver/DevServer.java:148 | a rendered port number in range parses back to itself |
| DevServer.NextValue | tools/devserver/src/main/java/org/teavm/devserver/DevServer.java:166-172 | at the end the default is returned and the value counts as missing; otherwise the next argument is consumed |
| DevServer.RunAppend | tools/devserver/src/main/java/org/teavm/devserver/DevServer.java:131-162 | a command line whose options all have values parses in two pieces, the second from where the first left off |
| DevServer.ClassPathArgs | tools/devserver/src/main/java/org/teavm/devserver/DevServer.java:134-137 | one -c per entry |
| DevServer.ClassPathKeepsOrder | tools/devserver/src/main/java/org/teavm/devserver/DevServer.java:134-137 | every -c entry is appended in command-line order |
| DevServer.VerboseSetsDebug | tools/devserver/src/main/java/org/teavm/devserver/DevServer.java:150-153 | -v and --verbose set the debug flag and consume no value |
| DevServer.UnknownOptionSetsError | tools/devserver/src/main/java/org/teavm/devserver/DevServer.java:154-157 | any other argument starting with "-" sets the error flag, consumes no value, and parsing goes on |
| DevServer.PositionalSetsMainClass | tools/devserver/src/main/java/org/teavm/devserver/DevServer.java:154-160 | an argument not starting with "-" becomes the main class |
| DevServer.LastMainClassWins | tools/devserver/src/main/java/org/teavm/devserver/DevServer.java:154-160 | a later positional argument replaces the main class |
| DevServer.RunMonotone | tools/devserver/src/main/java/org/teavm/devserver/DevServer.java:131-162 | the error flag is never cleared and the class path only grows, keeping its prefix |
| DevServer.MissingValueGivesDefault | tools/devserver/src/main/java/org/teavm/devserver/DevServer.java:166-170 | an option without its value sets the error flag and stores "" (or port 0), as next(defaultValue) returns for each option of the switch at lines 134-148 |
| DevServer.CommandLine.constructor | tools/devserver/src/main/java/org/teavm/devserver/DevServer.java:117-127 | the fields of a new command line |
| DevServer.CommandLine.Next | tools/devserver/src/main/java/org/teavm/devserver/DevServer.java:166-172 | next(): the cursor advances on success; at the end the error flag is set and the default returned |
| DevServer.CommandLine.ParseArgument | tools/devserver/src/main/java/org/teavm/devserver/DevServer.java:132-161 | one option and its value: the cursor advances and parsing goes on exactly as the reference walk does from the rest, or the port text makes Integer.parseInt throw |
| DevServer.CommandLine.Parse | tools/devserver/src/main/java/org/teavm/devserver/DevServer.java:129-164 | the loop ends in the state of the reference walk and returns true iff the error flag was never set; a malformed port throws |
| DevServer.Server.constructor | tools/devserver/src/main/java/org/teavm/devserver/DevServer.java:100 | the server starts with the main class, the class path and the defaults |
| DevServer.Server.SetPort | tools/devserver/src/main/java/org/teavm/devserver/DevServer.java:102 | only the port changes |
| DevServer.Server.SetPathToFile | tools/devserver/src/main/java/org/teavm/devserver/DevServer.java:105 | only the base directory changes |
| DevServer.Server.SetFileName | tools/devserver/src/main/java/org/teavm/devserver/DevServer.java:108 | only the file name changes |
| DevServer.Server.SetVerboseLog | tools/devserver/src/main/java/org/teavm/devserver/DevServer.java:111 | only the verbose log changes |
| DevServer.Configure | tools/devserver/src/main/java/org/teavm/devserver/DevServer.java:100-112 | the port is applied only when positive, the base directory and file name only when given |
| DevServer.LaunchFromCommandLine | tools/devserver/src/main/java/org/teavm/devserver/DevServer.java:93-114 | an invalid command line stops before the server is configured; otherwise the server gets the configured settings, with a positive port |
| CodeServlet.NormalizePathToFile | tools/devserver/src/main/java/org/teavm/devserver/CodeServlet.java:80-88 | the stored prefix is the given text with a "/" added in front when it lacks one and at the end when it lacks one (the empty text becomes "/"), so it starts and ends with "/" and a normalised prefix is left as is |
| CodeServlet.NormalizeIdempotent | tools/devserver/src/main/java/org/teavm/devserver/CodeServlet.java:80-88 | normalising twice is normalising once |
| CodeServlet.AbsolutePath | tools/devserver/src/main/java/org/teavm/devserver/CodeServlet.java:98-100 | a missing leading "/" is prefixed, and an absolute path is kept |
| CodeServlet.RequestKey | tools/devserver/src/main/java/org/teavm/devserver/CodeServlet.java:96-102 | a key exists iff the path starts with the prefix and is strictly longer; the key is the rest of the path |
| CodeServlet.RequestKeyOfServedName | tools/devserver/src/main/java/org/teavm/devserver/CodeServlet.java:101-102 | the prefix followed by a served name looks up exactly that name |
| CodeServlet.FirstPrefix | tools/devserver/src/main/java/org/teavm/devserver/CodeServlet.java:273-276 | the prefix is "" or a class-path entry the path starts with, and an entry whenever one matches |
| CodeServlet.FirstPrefixIsFirst | tools/devserver/src/main/java/org/teavm/devserver/CodeServlet.java:273-276 | the first matching entry wins |
| CodeServlet.SlashesToDots | tools/devserver/src/main/java/org/teavm/devserver/CodeServlet.java:282 | each "/" becomes "." and nothing else changes |
| CodeServlet.NameStart | tools/devserver/src/main/java/org/teavm/devserver/CodeServlet.java:277-280 | the name starts right after the first matching prefix, one further exactly when the next character is "/" |
| CodeServlet.ClassNameOf | tools/devserver/src/main/java/org/teavm/devserver/CodeServlet.java:273-282 | substring fails exactly when the start passes the suffix; otherwise the name is the text between the start and ".class" with every "/" made "." |
| CodeServlet.ClassNameOfUnmatched | tools/devserver/src/main/java/org/teavm/devserver/CodeServlet.java:273-282 | a path under no class-path entry gives the whole path without ".class" and without one leading "/" |
| CodeServlet.ClassNameOfUnslashed | tools/devserver/src/main/java/org/teavm/devserver/CodeServlet.java:273-282 | entry + relative + ".class" with no "/" after the entry gives the relative path with dots |
| CodeServlet.ClassNameOfRelative | tools/devserver/src/main/java/org/teavm/devserver/CodeServlet.java:273-282 | entry + "/" + relative + ".class" gives the relative path with dots |
| CodeServlet.ChangedClassNamesNoneExtends | tools/devserver/src/main/java/org/teavm/devserver/CodeServlet.java:267-284 | a failure at some file fails the whole call |
| CodeServlet.ChangedClassNamesAppend | tools/devserver/src/main/java/org/teavm/devserver/CodeServlet.java:267-284 | the result for concatenated file lists is the concatenation, so input order is kept |
| CodeServlet.ChangedClassNamesShape | tools/devserver/src/main/java/org/teavm/devserver/CodeServlet.java:264-287 | one name per .class file and none for other files, so never longer than the input; each name comes from a .class file |
| CodeServlet.Servlet.constructor | tools/devserver/src/main/java/org/teavm/devserver/CodeServlet.java:57-74 | a new servlet keeps a copy of the class path, serves under "/" and holds no content |
| CodeServlet.Servlet.SetPathToFile | tools/devserver/src/main/java/org/teavm/devserver/CodeServlet.java:80-88 | the stored prefix is the normalised one, starting and ending with "/" |
| CodeServlet.Servlet.DoGet | tools/devserver/src/main/java/org/teavm/devserver/CodeServlet.java:95-107 | content is answered iff the request key exists and is served, and then it is that key's bytes |
| CodeServlet.Servlet.GetChangedClasses | tools/devserver/src/main/java/org/teavm/devserver/CodeServlet.java:264-287 | the loop's result (or its failure) is that of the reference mapping |
| CodeServlet.Servlet.SaveNewResult | tools/devserver/src/main/java/org/teavm/devserver/CodeServlet.java:255-262 | the content map is replaced wholesale: its keys are exactly the build's names, each with its bytes |
| OutputFileUtil.SumPrefixBound | core/src/main/java/org/teavm/backend/c/generate/OutputFileUtil.java:56-69 | what was read so far never exceeds the whole resource |
| OutputFileUtil.Read | core/src/main/java/org/teavm/backend/c/generate/OutputFileUtil.java:57 | one read() fills the buffer with the next chunk of the resource, or returns -1 at the end |
| OutputFileUtil.IsChanged | core/src/main/java/org/teavm/backend/c/generate/OutputFileUtil.java:48-72 | true iff there is no existing resource or its bytes differ from the new data, whatever the chunk sizes |
| OutputFileUtil.BuildTarget.constructor | core/src/main/java/org/teavm/backend/c/generate/OutputFileUtil.java:43 | a new target has the given resources and has created none |
| OutputFileUtil.BuildTarget.CreateResource | core/src/main/java/org/teavm/backend/c/generate/OutputFileUtil.java:43-45 | the resource holds the written bytes and the creation is recorded |
| OutputFileUtil.Write | core/src/main/java/org/teavm/backend/c/generate/OutputFileUtil.java:31-46 | afterwards the resource holds the bytes; a resource is created iff the content changed |
| CodeGenerator.PushMethod | core/src/main/java/org/teavm/backend/c/generate/CodeGenerator.java:155-173 | the Fiber push method taking the variable's stack type |
| CodeGenerator.PopMethod | core/src/main/java/org/teavm/backend/c/generate/CodeGenerator.java:132-150 | the Fiber pop method returning the variable's stack type |
| CodeGenerator.HelpersDependOnlyOnStackKind | core/src/main/java/org/teavm/backend/c/generate/CodeGenerator.java:132-175 | two types share a helper iff they share a stack type; push and pop agree on it; INT, LONG, FLOAT and DOUBLE have their own helpers and everything else uses the object variant |
| CodeGenerator.LocalNamesDistinct | core/src/main/java/org/teavm/backend/c/generate/CodeGenerator.java:113-128 | different variable indices give different local names, so the `local_` names restored at line 113 and saved at line 128 never collide |
| CodeGenerator.ReverseAppend | core/src/main/java/org/teavm/backend/c/generate/CodeGenerator.java:108-123 | reversing a concatenation reverses and swaps the parts (the step relating the descending loop at line 108 to the ascending one at line 123) |
| CodeGenerator.DescendingIsReversedAscending | core/src/main/java/org/teavm/backend/c/generate/CodeGenerator.java:108-129 | the descending walk restores the qualifying locals in exactly the reverse order of the ascending walk |
| CodeGenerator.RestoreReversesSave | core/src/main/java/org/teavm/backend/c/generate/CodeGenerator.java:103-130 | the pop sequence (locals descending, then ptr) is exactly the reverse of the push sequence (ptr, then locals ascending) |
| CodeGenerator.AscendingExactlyQualifying | core/src/main/java/org/teavm/backend/c/generate/CodeGenerator.java:120-128 | exactly the variables with index at least parameterCount + 1 are saved (the same minVar test guards the restore loop at lines 104-111) |
| CodeGenerator.CodeWriter.constructor | core/src/main/java/org/teavm/backend/c/generate/CodeGenerator.java:191 | a new writer has no output |
| CodeGenerator.CodeWriter.Print | core/src/main/java/org/teavm/backend/c/generate/CodeGenerator.java:191 | the text is appended |
| CodeGenerator.CodeWriter.Println | core/src/main/java/org/teavm/backend/c/generate/CodeGenerator.java:151 | the text and a line end are appended |
| CodeGenerator.CodeWriter.Indent | core/src/main/java/org/teavm/backend/c/generate/CodeGenerator.java:94 | only the indentation grows |
| CodeGenerator.CodeWriter.Outdent | core/src/main/java/org/teavm/backend/c/generate/CodeGenerator.java:99 | only the indentation shrinks |
| CodeGenerator.ParameterItems | core/src/main/java/org/teavm/backend/c/generate/CodeGenerator.java:205-224 | one item per parameter, plus the receiver for an instance method |
| CodeGenerator.ParameterListShape | core/src/main/java/org/teavm/backend/c/generate/CodeGenerator.java:199-224 | a static method without parameters gets an empty list; an instance method starts with "void* _this_" (or "void*" without names); parameter i is its type followed by " local_{i+1}" when names are wanted |
| CodeGenerator.LocalDeclarationsExact | core/src/main/java/org/teavm/backend/c/generate/CodeGenerator.java:228-235 | exactly the non-null-typed variables from parameterCount + 1 on are declared, in ascending order |
| CodeGenerator.LocalsFragmentsSnoc | core/src/main/java/org/teavm/backend/c/generate/CodeGenerator.java:233-235 | declaring one more local appends exactly its declaration line |
| CodeGenerator.TemporariesOf | core/src/main/java/org/teavm/backend/c/generate/CodeGenerator.java:238-240 | count declarations for one C type |
| CodeGenerator.TemporariesOfNumbered | core/src/main/java/org/teavm/backend/c/generate/CodeGenerator.java:238-240 | temporary i of a type is named tmp_{type}_{i}, in order |
| CodeGenerator.CaseLabelsInOrder | core/src/main/java/org/teavm/backend/c/generate/CodeGenerator.java:92-101 | the state machine holds "case i:;" for each part i, in order, each just after the earlier parts |
| CodeGenerator.SaveFragmentsSnoc | core/src/main/java/org/teavm/backend/c/generate/CodeGenerator.java:174 | saving one more slot adds its push call line |
| CodeGenerator.RestoreFragmentsSnoc | core/src/main/java/org/teavm/backend/c/generate/CodeGenerator.java:151 | restoring one more slot adds its pop assignment line |
| CodeGenerator.FirstUntyped | core/src/main/java/org/teavm/backend/c/generate/CodeGenerator.java:123-129 | the first untyped qualifying variable, where the save loop throws: everything before it is typed, and it is the end exactly when all are typed |
| CodeGenerator.LastUntyped | core/src/main/java/org/teavm/backend/c/generate/CodeGenerator.java:108-114 | one past the last untyped qualifying variable, where the restore loop throws: everything after it is typed, and it is 0 exactly when all are typed |
| CodeGenerator.FirstUntypedAt | core/src/main/java/org/teavm/backend/c/generate/CodeGenerator.java:123-129 | an untyped variable with only typed ones before it is where the save loop throws |
| CodeGenerator.LastUntypedAt | core/src/main/java/org/teavm/backend/c/generate/CodeGenerator.java:108-114 | an untyped variable with only typed ones after it is where the restore loop throws |
| CodeGenerator.AscendingSnoc | core/src/main/java/org/teavm/backend/c/generate/CodeGenerator.java:123-129 | one more loop step saves the next variable exactly when it qualifies |
| CodeGenerator.DescendingCons | core/src/main/java/org/teavm/backend/c/generate/CodeGenerator.java:108-114 | the descending walk over a sequence with one more variable in front restores that variable last, exactly when it qualifies |
| CodeGenerator.DescendingPrepend | core/src/main/java/org/teavm/backend/c/generate/CodeGenerator.java:108-114 | one more descending step restores the next lower variable exactly when it qualifies |
| CodeGenerator.Generator.constructor | core/src/main/java/org/teavm/backend/c/generate/CodeGenerator.java:37-42 | a new generator keeps its writer and name and type printers and has no locals writer yet |
| CodeGenerator.Generator.OpenLocals | core/src/main/java/org/teavm/backend/c/generate/CodeGenerator.java:50 | the locals writer becomes a new, empty writer, distinct from the main writer |
| CodeGenerator.Generator.HeadFragmentsText | core/src/main/java/org/teavm/backend/c/generate/CodeGenerator.java:205-217 | the text printed before the loop is the first parameter item |
| CodeGenerator.Generator.TailFragmentsText | core/src/main/java/org/teavm/backend/c/generate/CodeGenerator.java:219-223 | one loop step prints ", " and parameter item i |
| CodeGenerator.Generator.ParameterStep | core/src/main/java/org/teavm/backend/c/generate/CodeGenerator.java:219-223 | after one more loop step the printed text is the parameter list so far, joined by ", ", one item longer |
| CodeGenerator.Generator.PrintHead | core/src/main/java/org/teavm/backend/c/generate/CodeGenerator.java:205-217 | appends the fragments before the loop |
| CodeGenerator.Generator.PrintTail | core/src/main/java/org/teavm/backend/c/generate/CodeGenerator.java:220-223 | appends the fragments of one loop step |
| CodeGenerator.Generator.GenerateMethodParameters | core/src/main/java/org/teavm/backend/c/generate/CodeGenerator.java:199-225 | what is printed reads as the parameter list joined by ", " |
| CodeGenerator.Generator.GenerateMethodSignature | core/src/main/java/org/teavm/backend/c/generate/CodeGenerator.java:189-197 | "static ", the return type, " ", the name, then the parameter list in parentheses |
| CodeGenerator.Generator.GenerateLocals | core/src/main/java/org/teavm/backend/c/generate/CodeGenerator.java:227-242 | the local declarations, then temporaryCount[t] temporaries per C type in order |
| CodeGenerator.Generator.GenerateLocalDeclarations | core/src/main/java/org/teavm/backend/c/generate/CodeGenerator.java:228-235 | the loop prints exactly the declarations of the non-null-typed variables from the start on |
| CodeGenerator.Generator.PrintLocal | core/src/main/java/org/teavm/backend/c/generate/CodeGenerator.java:234 | type, " local_", index, ";" |
| CodeGenerator.Generator.GenerateTemporaries | core/src/main/java/org/teavm/backend/c/generate/CodeGenerator.java:237-241 | the outer loop prints each C type's temporaries in order |
| CodeGenerator.Generator.PrintTemporaries | core/src/main/java/org/teavm/backend/c/generate/CodeGenerator.java:238-240 | the inner loop prints count numbered temporaries |
| CodeGenerator.Generator.RenderStateMachine | core/src/main/java/org/teavm/backend/c/generate/CodeGenerator.java:92-101 | one case label per part, followed by that part's code, in order |
| CodeGenerator.Generator.EmitPart | core/src/main/java/org/teavm/backend/c/generate/CodeGenerator.java:98 | a part's code is appended |
| CodeGenerator.Generator.GenerateSaveVariable | core/src/main/java/org/teavm/backend/c/generate/CodeGenerator.java:155-175 | one line calling the push helper of the type with the fiber and the name; a null type throws and prints nothing |
| CodeGenerator.Generator.GenerateRestoreVariable | core/src/main/java/org/teavm/backend/c/generate/CodeGenerator.java:132-152 | one line assigning the name from the pop helper of the type; a null type throws and prints nothing |
| CodeGenerator.Generator.GenerateSaveState | core/src/main/java/org/teavm/backend/c/generate/CodeGenerator.java:119-130 | pushes in save order: ptr, then the qualifying locals ascending; throws exactly when a qualifying local is untyped, after pushing ptr and the locals before the first such one |
| CodeGenerator.Generator.RestoreLocals | core/src/main/java/org/teavm/backend/c/generate/CodeGenerator.java:108-114 | the descending loop pops the qualifying locals from the highest down; throws exactly when a qualifying local is untyped, after popping the locals above the last such one |
| CodeGenerator.Generator.GenerateRestoreState | core/src/main/java/org/teavm/backend/c/generate/CodeGenerator.java:103-117 | inside the isResuming test, pops in restore order: the locals descending, then ptr; on an untyped local it throws inside the block, one level deeper, with neither ptr nor the closing brace printed |
| CodeGenerator.Generator.GenerateAsyncMethodBody | core/src/main/java/org/teavm/backend/c/generate/CodeGenerator.java:75-90 | the ptr and fiber locals, then restore, prologue, state machine, epilogue and save, in that order; an untyped local makes the restore throw and nothing after it is printed |
| CodeGenerator.Generator.RenderAsyncPrologue | core/src/main/java/org/teavm/backend/c/generate/CodeGenerator.java:177-180 | opens the loop and the switch, two levels deeper |
| CodeGenerator.Generator.RenderAsyncEpilogue | core/src/main/java/org/teavm/backend/c/generate/CodeGenerator.java:182-187 | closes the switch and the loop with their labels, two levels back |

## Left out

- The dependency node class, the analysis base class, FastInstructionAnalyzer and FastVirtualCallConsumer are not part of this model.
  - A node is an arena entry holding its types, its edges and its consumers.
  - Propagation is a set of pending deliveries. One pending delivery completes per `Deliver` call.
  - The loop that drives the deferred tasks and the pending deliveries to a fixed point is the base class's and is not modelled.
  - What a consumer does with the types it receives is not modelled either; it records them.
  - Which classes and methods linkClass and linkMethod load, and how, is not modelled; the analyzer records what it links.
- FastDependency.Analyzer.ProcessMethod: the instruction analysis of each block (`readAllInstructions`) belongs to FastInstructionAnalyzer and is not modelled.
- The monitor support method constants are declared in AbstractInstructionAnalyzer, which is not part of this model. Their names and descriptors here are placeholders. Only the order and the async condition are stated.
- Node types are value types directly. The parsing of type names into value types is left out.
- FastDependency.Analyzer.Cleanup: does not keep the invariant. Types already at the instances node lose their record of having reached a subtype node, and the analysis is not meant to continue after cleanup.
- The code follows the source, not the prose docs, for an unresolvable class. The code adds no fallback edge to java.lang.Object for it, and neither does the model.
- domainOptimizationEnabled and isPrecise are constant answers with nothing to state.
- Devirtualization: the type sets come from the analysis as given data. Instructions other than invocations are opaque.
- DevServer.ParseInt: only ASCII decimal digits with an optional sign. The Unicode digits Integer.parseInt also accepts are left out.
- DevServer: printing the error, System.exit and starting the Jetty server (`start`/`stop`) are I/O. The model stops at the settings.
- CodeServlet: HTTP responses, threads, locks, class loaders and the TeaVM build are left out. A changed path whose name would start after its `.class` suffix makes `substring` throw. This is modelled as a failure of the whole call.
- FileSystemWatcher: OS watch-service I/O, left out.
- OutputFileUtil: the streams are modelled as the resource's bytes, read in given chunk sizes. The code writer's rendering to bytes is an input.
- CodeGenerator: generateMethod's fragment insertion is left out. `OpenLocals` gives the locals their own writer, and where that text appears in the method is not stated. Also left out: the regular-method body, the CodeGenerationVisitor and the name provider. Names and type texts are function parameters. Indentation is a counter: the layout of indented text is not modelled.
- classlib buffers, the C file system, the time-zone generator, the IDE settings panel and the trivial accessors are outside the modelled core. They are floating-point reinterpretation, native and JavaScript calls, I/O and UI.
