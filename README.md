# cljx, modelled in Dafny

A model of the core of cljx, a small Clojure-like interpreter written in
Rust, with proofs about that model. It covers five parts of the interpreter:

- **The reader** (`Reader`, `ReaderText`, `ReaderFacts`, `Read`). It turns
  text into values: lists, vectors, sets, maps, the `'x` quote shorthand,
  `;` line comments, `#_` discards, and nil, boolean, number, string,
  keyword and symbol atoms. It is written by hand over `seq<char>`, one
  function per parser of `src/without_eval.rs`. The `while let` and `for`
  loops of `try_parse`, `try_parse_discard` and `read_many` are methods,
  each proved to compute the function that describes it. The main theorem
  is that the display of every readable value (an atom the reader accepts,
  or a list, vector, set or map of readable values) reads back as that
  value, and that `read_many` of printed values gives them all back in
  order.
- **Values and their parts** (`Values`, `Symbols`, `Keywords`, `Items`,
  `Lists`, `Vectors`, `Sets`, `Maps`, `Convert`). Values form a datatype.
  Lists and vectors are sequences, sets are sets and maps are maps. The
  `*_mut` operations are methods of small classes that hold the collection
  in a field. A var is a class with one mutable slot, so every holder of it
  sees `bind` and `unbind`. The `From<List/Vector/Set/Map>` wraps are the
  datatype's own constructors, and `FromIterator` for lists and vectors is
  the sequence itself.
- **Namespaces and the environment** (`Namespaces`, `Envs`). These are
  classes. A namespace holds maps from names to var objects. The
  environment holds a registry from names to namespace objects, plus the
  footprint `Repr` of every object it reaches.
- **The evaluator** (`Semantics`, `SemanticsFacts`, `Rt`, `Arity`).
  - `Semantics.Denote` is a reference definition of `eval2` over the
    current state. It covers every case in which evaluation cannot change
    the environment.
  - The evaluator's methods (`Rt.Eval2`, `Rt.Eval`, `Rt.Apply`, …) are
    proved to yield exactly that definition and to change nothing whenever
    it applies.
  - Where evaluation changes the environment, the methods state the new
    state themselves.
  - `check_arity` is a function, both as written and as intended.
- **The library** (`Core`, `Rt`, `CoreEnv`).
  - The functions that only look at their arguments are functions of
    `Core`: `first`, `second`, `last`, `rest`, `conj`, `vec`, `vector`,
    `list`, `keyword`, `symbol`, `name` and `namespace`.
  - The functions that change the environment are methods of `Rt`:
    `declare`, `in-ns`, `create-ns`, `find-ns`, `remove-ns` and `eval`.
  - `CoreEnv` models `add_to_env` and `new_env`.

A Rust panic (`unwrap`, `expect`, `todo!`, `assert!`, a `RefCell` borrow
conflict) is an explicit outcome (`Panic`, `Panicked`) wherever the source
can reach one, with three exceptions. The library and the evaluator use the
corrected `check_arity`, `second` and `declare` of "## Findings". The panics
those three reach as written are modelled only by their `*AsWritten` members
("## Left out" names each member concerned). Integers are `i64` values, and
the reader checks their range.

## Model

| member | source | states |
|---|---|---|
| Symbols.UnqualifiedFromStr | src/unqualified_symbol.rs:39-56 | parsing text as an unqualified symbol never fails and keeps the text as the name |
| Symbols.QualifiedFromPair | src/qualified_symbol.rs:46-55 | a qualified symbol built from a pair has the first part's name as namespace and the second's as name |
| Symbols.FromPair | src/symbol.rs:25-29 | a symbol built from a pair is qualified, with that namespace and name |
| Symbols.FromOption | src/symbol.rs:31-38 | a symbol built from an optional namespace is qualified exactly when the namespace is present; the name and namespace are the given ones |
| Symbols.NamespacePanicing | src/symbol.rs:57-66 | `namespace_panicing` succeeds exactly on qualified symbols and then returns their namespace; otherwise it panics |
| Symbols.QualifiedIsNotUnqualified | src/symbol.rs:42-48 | `is_qualified` is the negation of `is_unqualified` |
| Symbols.ProjectionsRebuild | src/symbol.rs:50-62 | `name()` and `namespace()` determine the symbol: rebuilding from them gives the same symbol |
| Symbols.CompareIsConsistent | src/symbol.rs:6 | the derived ordering answers `Equal` exactly on equal symbols, and swapping the operands flips the answer |
| Symbols.SlashPositionOf | src/symbol.rs:70-77 | in the display of a symbol whose parts hold no `/`, the first `/` sits right after the namespace of a qualified symbol, and there is none in an unqualified one |
| Symbols.ShowInjective | src/symbol.rs:70-77 | when no part contains `/`, two symbols with the same display are the same symbol |
| Keywords.UnqualifiedFromStr | src/unqualified_keyword.rs:40-58 | parsing text as an unqualified keyword never fails and keeps the text as the name |
| Keywords.UnqualifiedFromSymbol | src/unqualified_keyword.rs:60-64 | converting an unqualified symbol keeps its name |
| Keywords.UnqualifiedToSymbol | src/unqualified_symbol.rs:58-62 | converting an unqualified keyword keeps its name |
| Keywords.QualifiedFromPair | src/qualified_keyword.rs:47-56 | a qualified keyword built from a pair has the first part's name as namespace and the second's as name |
| Keywords.QualifiedFromSymbol | src/qualified_keyword.rs:67-74 | converting a qualified symbol keeps its namespace and name |
| Keywords.QualifiedToSymbol | src/qualified_symbol.rs:57-64 | converting a qualified keyword keeps its namespace and name |
| Keywords.FromPair | src/keyword.rs:25-29 | a keyword built from a pair is qualified, with that namespace and name |
| Keywords.FromOption | src/keyword.rs:31-38 | a keyword built from an optional namespace is qualified exactly when the namespace is present; the name and namespace are the given ones |
| Keywords.NamespacePanicing | src/keyword.rs:57-66 | `namespace()` succeeds exactly on qualified keywords and then returns what `maybe_namespace` returns; otherwise it panics |
| Keywords.TryAsUnqualified | src/keyword.rs:70-75 | `Ok` exactly for an unqualified keyword, with a payload that rebuilds it; otherwise `Err` with the keyword itself |
| Keywords.AsUnqualified | src/keyword.rs:77-82 | succeeds exactly for an unqualified keyword and returns its payload; otherwise panics |
| Keywords.TryAsQualified | src/keyword.rs:86-91 | `Ok` exactly for a qualified keyword, with a payload that rebuilds it; otherwise `Err` with the keyword itself |
| Keywords.AsQualified | src/keyword.rs:93-98 | succeeds exactly for a qualified keyword and returns its payload; otherwise panics |
| Keywords.QualifiedIsNotUnqualified | src/keyword.rs:42-48 | `is_qualified` is the negation of `is_unqualified` |
| Keywords.CompareIsConsistent | src/keyword.rs:6 | the derived ordering answers `Equal` exactly on equal keywords, and swapping the operands flips the answer |
| Keywords.NameConversionsRoundTrip | src/unqualified_keyword.rs:60-64 | keyword and symbol payloads convert into each other and back without loss, in both directions, qualified and unqualified |
| Keywords.ProjectionsRebuild | src/keyword.rs:50-62 | `name()` and `maybe_namespace()` determine the keyword: rebuilding from them gives the same keyword |
| Keywords.Show | src/unqualified_keyword.rs:67-71 | the display of a keyword starts with `:` (also `QualifiedKeyword`, src/qualified_keyword.rs:77-82, and `Keyword`, src/keyword.rs:103-110) |
| Keywords.PairOrderMatters | src/keyword.rs:140-151 | `:abc/xyz` and `:xyz/abc` are different keywords |
| Values.Var.Unbound | src/var.rs:29-31 | a new unbound var holds nothing |
| Values.Var.Bound | src/var.rs:33-35 | a new bound var holds the given value |
| Values.Var.Bind | src/var.rs:49-51 | after `bind(v)` the var derefs to `v` and is bound, whatever it held before |
| Values.Var.Unbind | src/var.rs:53-55 | after `unbind` the var derefs to nothing and is unbound |
| Values.VarStates | src/var.rs:37-47 | in every state a var is exactly one of bound and unbound, and it is unbound exactly when it derefs to nothing |
| Values.Callable.constructor | src/clojure/core.rs:1024-1064 | a callable keeps the builtin it stands for; its identity is the reference |
| Values.PredicateRelations | src/value.rs:156-294 | `is_some` negates `is_nil`; `is_number` is integer or float; `is_boolean_true`/`_false` agree with equality; the qualified and unqualified symbol and keyword tests together make up the plain test |
| Values.AndFormsDecide | src/value.rs:298-367 | each collection `is_X_and(f)` is false on other variants whatever `f` is, and is `f(payload)` on its own variant; the `_nonempty_and` forms are the plain form with emptiness checked first |
| Values.TryAsInteger | src/value.rs:383-388 | `Ok` exactly for an integer, carrying its payload; otherwise `Err` with the value itself |
| Values.AsInteger | src/value.rs:390-392 | succeeds exactly for an integer and returns its payload; otherwise panics |
| Values.TryAsSymbol | src/value.rs:396-401 | `Ok` exactly for a symbol, carrying its payload; otherwise `Err` with the value itself |
| Values.AsSymbolPanicing | src/value.rs:403-408 | succeeds exactly for a symbol and returns its payload; otherwise panics |
| Values.TryAsSymbolUnqualified | src/value.rs:419-424 | `Ok` exactly for an unqualified symbol, carrying its payload; otherwise `Err` with the value itself |
| Values.AsSymbolUnqualifiedPanicing | src/value.rs:426-431 | succeeds exactly for an unqualified symbol; otherwise panics |
| Values.TryAsSymbolQualified | src/value.rs:442-447 | `Ok` exactly for a qualified symbol, carrying its payload; otherwise `Err` with the value itself |
| Values.AsSymbolQualifiedPanicing | src/value.rs:449-454 | succeeds exactly for a qualified symbol; otherwise panics |
| Values.TryAsAFn | src/value.rs:465-470 | `Ok` exactly for a callable, carrying it; otherwise `Err` with the value itself |
| Values.AsAFnPanicing | src/value.rs:472-477 | succeeds exactly for a callable; otherwise panics |
| Values.TryAsList | src/value.rs:481-486 | `Ok` exactly for a list, carrying its items (also `try_into_list`, 504-509); otherwise `Err` with the value itself |
| Values.AsListPanicing | src/value.rs:488-493 | succeeds exactly for a list and returns its items (also `into_list_panicing`, 511-516); otherwise panics |
| Values.TryAsVector | src/value.rs:520-525 | `Ok` exactly for a vector, carrying its items (also `try_into_vector`, 543-548); otherwise `Err` with the value itself |
| Values.AsVectorPanicing | src/value.rs:527-532 | succeeds exactly for a vector and returns its items (also `into_vector_panicing`, 550-555); otherwise panics |
| Values.TryAsSet | src/value.rs:559-564 | `Ok` exactly for a set, carrying its members; otherwise `Err` with the value itself |
| Values.AsSetPanicing | src/value.rs:566-571 | succeeds exactly for a set and returns its members; otherwise panics |
| Values.TryAsMap | src/value.rs:582-587 | `Ok` exactly for a map, carrying its entries (also `try_into_map`, 605-610); otherwise `Err` with the value itself |
| Values.AsMapPanicing | src/value.rs:589-594 | succeeds exactly for a map and returns its entries (also `into_map_panicing`, 612-617); otherwise panics |
| Values.FromUnit | src/value.rs:621-625 | the unit value converts to nil |
| Values.FromBool | src/value.rs:627-631 | a boolean converts to the value that `is_boolean_true`/`is_boolean_false` recognise accordingly |
| Values.FromInt64 | src/value.rs:633-637 | an integer converts to the value that `try_as_integer` gives back |
| Values.FromString | src/value.rs:645-649 | a string converts to a string value with that text |
| Values.FromSymbol | src/value.rs:651-655 | a symbol converts to the value that `try_as_symbol` gives back |
| Values.FromKeyword | src/value.rs:657-661 | a keyword converts to a keyword value holding it |
| Values.HandleIsNeverEqual | src/value.rs:761-781 | a handle is unequal to itself |
| Values.EqualValuesShareAVariant | src/value.rs:761-781 | values of different variants are never equal |
| Values.ValueEqIsIdentity | src/value.rs:761-781 | equality holds only between identical values: structural on data, pointer identity on vars and callables |
| Values.ItemsEqIsIdentity | src/value.rs:761-781 | element-wise equality of lists or vectors holds only between identical sequences |
| Values.ValueEqReflexive | src/value.rs:761-781 | a value with no handle in it, looking through lists, vectors and map values, is equal to itself; a handle as a set member or a map key does not matter, since those are matched by lookup |
| Values.ItemsEqReflexive | src/value.rs:761-781 | a sequence none of whose elements holds a handle (in the same sense) is element-wise equal to itself |
| Values.ValueEqSymmetric | src/value.rs:761-781 | equality is symmetric |
| Values.ItemsEqSymmetric | src/value.rs:761-781 | element-wise equality is symmetric |
| Values.CrossVariantIsLessBothWays | src/value.rs:788-806 | two values of different variants compare `Less` in both directions |
| Values.HandlesCompareEqual | src/value.rs:788-806 | two handles compare `Equal` although no handle equals any value |
| Values.CompareIsConsistent | src/value.rs:788-806 | on values without floats, sets, maps, vars, callables or handles, the order answers `Equal` exactly on equal values, and a `Greater` becomes `Less` when the operands are swapped |
| Values.ValueEq | src/value.rs:761-781 | equal values share a variant, and a handle equals nothing; maps are equal when their keys agree and the values under each key are equal |
| Values.ItemsEq | src/value.rs:761-781 | two sequences are element-wise equal exactly when they have the same length and every position holds equal values |
| Values.Compare | src/value.rs:788-806 | values of different variants compare `Less`; any other answer is between values of one variant; two handles compare `Equal` although they are unequal |
| Values.CompareItemsIsConsistent | src/value.rs:788-806 | the lexicographic order of lists and vectors answers `Equal` exactly on equal sequences, and a `Greater` becomes `Less` when swapped |
| Values.Enumerate | src/set.rs:120-131 | the members of a set listed once each (the order a set displays in) |
| Items.First | src/list.rs:103-106 | the front element exactly when the sequence is non-empty (also `Vector::first`, src/vector.rs:100-103) |
| Items.Last | src/list.rs:87-89 | the back element exactly when the sequence is non-empty (also `Vector::last`, src/vector.rs:82-84) |
| Items.Rest | src/list.rs:92-96 | the rest of an empty sequence is empty; a non-empty one is its first element followed by its rest (also src/vector.rs:87-95) |
| Items.FirstOr | src/list.rs:113-116 | the first element, or the given default when there is none |
| Items.FirstOrNil | src/list.rs:108-111 | the first element, or nil when there is none |
| Items.FirstOrElse | src/list.rs:118-121 | the first element, or what the fallback produces when there is none |
| Items.ContainsMeansSomePosition | src/list.rs:186-188 | the front-to-back search succeeds exactly when some position holds an element equal to the value (also src/vector.rs:167-169) |
| Items.ContainsIsMembership | src/list.rs:186-188 | `contains` implies membership, membership implies `contains` for a value without a handle, and a handle is never found |
| Items.FirstRestRebuild | src/list.rs:87-106 | `first` and `rest` take a non-empty sequence apart without loss; the rest is one shorter and keeps the last element |
| Lists.NewEmpty | src/list.rs:58-62 | the new list is empty, with no first and no last element |
| Lists.PushFront | src/list.rs:158-161 | the new list's first element is the pushed value and its rest is the old list |
| Lists.PushFrontKeepsTheRest | src/list.rs:158-161 | pushing at the front adds one element, keeps the last one, and `contains` afterwards means equal to the pushed value or contained before |
| Lists.MutableList.NewEmpty | src/list.rs:58-62 | a new mutable list holds nothing |
| Lists.MutableList.PushFrontMut | src/list.rs:163-166 | in place, the list becomes what `push_front` returns |
| Lists.MutableList.DropFirstMut | src/list.rs:168-170 | in place, the list becomes its rest; an empty list is left alone |
| Vectors.NewEmpty | src/vector.rs:53-57 | the new vector is empty, with no first and no last element |
| Vectors.PushBack | src/vector.rs:139-142 | the new vector ends with the pushed value and begins with the old vector |
| Vectors.DropLast | src/vector.rs:149-151 | a vector has a back to drop exactly when it is non-empty, and pushing the dropped element back restores it |
| Vectors.PushBackRoundTrip | src/vector.rs:139-151 | dropping the back undoes pushing it; pushing keeps the first element; `contains` afterwards means contained before or equal to the pushed value |
| Vectors.MutableVector.NewEmpty | src/vector.rs:53-57 | a new mutable vector holds nothing |
| Vectors.MutableVector.PushBackMut | src/vector.rs:144-147 | in place, the vector becomes what `push_back` returns |
| Vectors.MutableVector.DropLastMut | src/vector.rs:149-151 | it reports whether there was a back element; if so, the vector loses it in place, and otherwise it is unchanged |
| Maps.NewEmpty | src/map.rs:179-181 | the new map has no entries and is empty |
| Maps.Get | src/map.rs:209-215 | `Some` exactly when the key is present, carrying the value stored under it |
| Maps.GetOr | src/map.rs:229-243 | the stored value when the key is present, the given default otherwise |
| Maps.GetOrNil | src/map.rs:245-260 | the stored value when `get` finds one, nil otherwise |
| Maps.GetOrElse | src/map.rs:262-270 | the stored value when `get` finds one, otherwise what the fallback produces |
| Maps.NilValueLooksAbsent | src/map.rs:245-260 | a key stored with nil and an absent key look the same to `get_or_nil`, but not to `get` (test src/map.rs:363-381) |
| Maps.Keys | src/map.rs:59-61 | every key exactly once |
| Maps.ValuesOf | src/map.rs:63-65 | the value of each key, in the order of `keys` |
| Maps.Entries | src/map.rs:55-57 | each key paired with its value, in the order of `keys` and `values` |
| Maps.FromPairs | src/convert.rs:189-202 | the map built from pairs has no more entries than there are pairs |
| Maps.FromPairsHas | src/convert.rs:189-202 | every key among the pairs ends up in the built map |
| Maps.FromPairsOnly | src/convert.rs:189-202 | every key of the built map comes from a pair, and its value is the one of that key's last pair |
| Maps.LastPairWins | src/convert.rs:189-202 | when a key occurs more than once, its last pair decides its value |
| Maps.EntriesRebuild | src/map.rs:55-57 | collecting the entries of a map (`FromIterator`, src/convert.rs:189-202) gives the map back |
| Maps.MapValues | src/map.rs:94-101 | the same keys, each with `f` of its value |
| Maps.RewrittenEntries | src/map.rs:76-83 | the pairs `f(k, v)` for the entries, in iteration order |
| Maps.MapEntries | src/map.rs:76-83 | inserting the rewritten pairs in order gives no more entries than the map had |
| Maps.MapKeys | src/map.rs:85-92 | inserting the pairs `(f(k), v)` in order gives no more entries than the map had |
| Maps.MapEntriesHas | src/map.rs:76-83 | each entry's new key is in the result, and when no other entry yields the same new key, it holds that entry's new value |
| Maps.MapEntriesOnly | src/map.rs:76-83 | every key of the result is the new key of some entry |
| Maps.MapKeysInjective | src/map.rs:85-92 | when `f` keeps keys apart, each value moves to its key's image |
| Maps.MapEntriesKeepingKeys | src/map.rs:76-101 | rewriting entries without touching the keys is `map_values` |
| Maps.MapValuesCompose | src/map.rs:94-101 | `map_values` composes, and mapping with the identity changes nothing |
| Maps.PartialStep | src/map.rs:103-115 | rewriting one more snapshotted entry in place keeps the rewrite consistent: pending keys keep their old values, done entries sit under their new keys, and nothing else is present |
| Maps.PartialDone | src/map.rs:103-115 | a finished in-place rewrite is exactly `map_entries` |
| Maps.MutableMap.constructor | src/map.rs:183-187 | a mutable map holding the given entries |
| Maps.MutableMap.MapEntriesMut | src/map.rs:103-115 | in place, the map becomes `map_entries` of its old self (test src/map.rs:384-397) |
| Maps.MutableMap.MapKeysMut | src/map.rs:117-128 | in place, the map becomes `map_keys` of its old self, each value under its key's image (test src/map.rs:399-410) |
| Maps.MapValuesByKey | src/map.rs:130-141 | what `map_values_mut` stores: the same keys, each with `f` of the KEY |
| Maps.MapValuesMutDiffers | src/map.rs:130-141 | on `{1 2}` with the identity, `map_values_mut` as written and `map_values` give different maps |
| Maps.MutableMap.MapValuesMutAsWritten | src/map.rs:130-141 | in place, the map becomes `MapValuesByKey` of its old self: each value replaced by `f` of its key, as the code does |
| Maps.MutableMap.MapValuesMut | src/map.rs:130-141 | the intended behaviour: in place, the map becomes `map_values` of its old self |
| Sets.NewEmpty | src/set.rs:26-28 | the new set is empty (also `Default`, src/set.rs:112-116) |
| Sets.FromSeq | src/set.rs:82-98 | the set built from a sequence holds exactly its elements |
| Sets.FromSeqSize | src/set.rs:82-98 | duplicates collapse: the set is never larger than the sequence, and is as large exactly when no element repeats |
| Sets.FromSeqSnoc | src/convert.rs:163-172 | collecting one more element adds exactly that element |
| Sets.DistinctSnoc | src/set.rs:82-98 | a sequence extended by `x` repeats nothing exactly when the original repeats nothing and lacks `x` |
| Convert.SymbolFromKeyword | src/convert.rs:91-98 | the symbol keeps the keyword's name and qualification, and the keyword displays as `:` followed by the symbol's display |
| Convert.SymbolFromKeywordInjective | src/convert.rs:91-98 | different keywords give different symbols |
| Convert.CollectMap | src/convert.rs:189-202 | the collected map is the one that inserting the pairs in order builds (`FromPairs`) |
| Namespaces.Namespace.NewEmpty | src/namespace.rs:28-41 | a new namespace has the given name and no interned, referred or aliased entries |
| Namespaces.Namespace.Interns | src/namespace.rs:43-47 | exactly the (name, var) pairs of the interned vars |
| Namespaces.Namespace.InternsAreLookups | src/namespace.rs:43-64 | a pair is listed by `interns` exactly when `get_interned_var` of its name finds its var |
| Namespaces.Namespace.GetInternedVar | src/namespace.rs:62-64 | `Some` exactly for an interned name, carrying its var |
| Namespaces.Namespace.GetReferredVar | src/namespace.rs:66-68 | `Some` exactly for a referred name, carrying its var |
| Namespaces.Namespace.GetInternedOrReferredVar | src/namespace.rs:70-73 | found when the name is interned or referred; an interned var shadows a referred one |
| Namespaces.Namespace.Declare | src/namespace.rs:49-52 | a fresh unbound var replaces whatever was interned under the name; everything else in the namespace is unchanged |
| Namespaces.Namespace.Intern | src/namespace.rs:54-60 | afterwards the name is interned with the value; an existing var is rebound in place, so the map is unchanged; otherwise a fresh var is added; no other var changes value |
| Envs.Env.NewEmpty | src/env.rs:26-28 | a new environment has no namespaces |
| Envs.Env.Namespaces | src/env.rs:36-41 | exactly the (name, namespace) pairs of the registry |
| Envs.Env.NamespacesAreLookups | src/env.rs:36-76 | a pair is listed by `namespaces` exactly when `get_namespace` of its name finds its namespace |
| Envs.Env.GetNamespace | src/env.rs:70-92 | `Some` exactly for a registered name, carrying its namespace; it reads the registry and changes nothing (also `_ref` and `_mut`) |
| Envs.Env.Resolve | src/env.rs:96-110 | nothing when the namespace is absent; otherwise that namespace's interned-or-referred lookup; it changes nothing |
| Envs.Env.ResolvedVarsBelong | src/env.rs:96-110 | a registered namespace carries the name it is registered under, and every resolved var belongs to the environment |
| Envs.Env.NamespacesAreDistinct | src/env.rs:50-58 | two names never share one namespace object |
| Envs.Env.FindOrCreateNamespace | src/env.rs:50-68 | the result is registered under the name; a registered name changes nothing, so repeated calls return the same object; otherwise exactly one fresh, empty namespace is added |
| Envs.Env.RemoveNamespace | src/env.rs:43-48 | the name is unregistered, the other entries stay, and the removed entry is returned when there was one |
| Envs.Env.Intern | src/env.rs:123-145 | the namespace is found or created, after which the name is interned there and resolves to a var holding the value; the target namespace's interned map changes only at that name (a new namespace holds only it) and its referred map is kept; a var already interned there stays the same object, rebound in place so every holder sees the value, and otherwise the var is fresh; other namespaces and every other var are unchanged |
| Envs.Env.InternInto | src/env.rs:123-145 | interning into a registered namespace: the var under the name holds the value (the same object if it existed, a fresh one otherwise); nothing else changes |
| Envs.Env.Declare | src/namespace.rs:49-52 | declaring in a registered namespace: the name resolves to a fresh unbound var; other namespaces and every existing var keep their values |
| Arity.ArgCount | src/rt.rs:322 | `args.len() as i64` is the count itself for every length below 2^63 (beyond it, it wraps around) |
| Arity.CheckArityAsWritten | src/rt.rs:307-407 | `check_arity` as written: panics exactly when some arity is neither an integer nor `[n]`, or there are two variadics; otherwise `Ok` exactly when the count is one of the integers, because the variadic test never succeeds |
| Arity.CheckArity | src/rt.rs:307-407 | the intended `check_arity`: the same panics; with no variadic it agrees with the code as written, and with a variadic `[n]` it accepts every count of at least `n` |
| Arity.VariadicIsRefusedAsWritten | src/rt.rs:360 | the arity `#{[0]}` of `vector` refuses every count as written and accepts every count as intended |
| Arity.ConjAritiesAsWrittenAndIntended | src/clojure/core.rs:805-815 | the arity `#{0 1 [2]}` of `conj` accepts every count as intended, but only zero or one argument as written |
| Core.First | src/clojure/core.rs:338-356 | succeeds exactly on one argument that is nil, a list or a vector: nil for nil and for an empty collection, else element 0 (tests src/clojure/core.rs:1425-1445, tests/list_fn.rs:25-42) |
| Core.SecondAsWritten | src/clojure/core.rs:369-397 | `second` as written never succeeds on a one-element collection |
| Core.Second | src/clojure/core.rs:361-397 | `second` as documented, `(first (next x))`: succeeds exactly on one list or vector, with element 1 or nil; it agrees with the code as written wherever that succeeds |
| Core.Last | src/clojure/core.rs:407-431 | succeeds exactly on one list or vector, giving its final element or nil when empty (tests/list_fn.rs:64-82) |
| Core.Rest | src/clojure/core.rs:441-470 | succeeds exactly on one list or vector and always gives a list: `()` for an empty collection, otherwise the elements after the first (tests/rest_fn.rs:9-33) |
| Core.Conj | src/clojure/core.rs:805-837 | `[]` with no arguments and the argument itself with one; with more, the second is pushed at the front of a list or at the back of a vector; anything else panics |
| Core.Vec | src/clojure/core.rs:678-696 | succeeds exactly on one list or vector and gives the vector of its elements in order |
| Core.VectorOf | src/clojure/core.rs:300-311 | the arguments, in order, as a vector |
| Core.ListOf | src/clojure/core.rs:286-289 | the arguments, in order, as a list |
| Core.KeywordOf | src/clojure/core.rs:550-601 | one argument (a string, keyword or symbol) names an unqualified keyword, dropping a namespace; two arguments (each a string or an unqualified keyword or symbol) give the qualified keyword; anything else panics (tests src/clojure/core.rs:1141-1251) |
| Core.SymbolOf | src/clojure/core.rs:614-665 | the same dispatch as `keyword`, building symbols (tests src/clojure/core.rs:1276-1386) |
| Core.NameOf | src/clojure/core.rs:742-763 | one argument: the name of a string, symbol or keyword as a string, nil for anything else |
| Core.NamespaceOf | src/clojure/core.rs:709-730 | one argument: the namespace of a qualified symbol or keyword as a string, nil for anything else |
| Core.Call | src/clojure/core.rs:286-837 | a pure library function called with its arguments: a count its arity set refuses panics (the `check_arity(..).unwrap()` each one starts with), `list` and `prn` always return, and `last` and `rest` return only for one argument |
| Core.SecondOfOneElement | src/clojure/core.rs:385-387 | on a one-element list or vector, `second` as written panics, while `(first (next x))` is nil |
| Core.SecondIsFirstOfRest | src/clojure/core.rs:361 | `second` is `first` of `rest` |
| Core.ConjThenLook | src/clojure/core.rs:817-836 | `conj` onto a list puts the value first and keeps the list as its rest; onto a vector it puts the value last |
| Core.FirstRestConj | src/clojure/core.rs:338-470 | `first` and `rest` of a non-empty list, put back together with `conj`, give the list again |
| Core.ConjIgnoresTheRest | src/clojure/core.rs:817-836 | arguments after the second play no part in `conj` |
| Core.VecOfList | src/clojure/core.rs:678-696 | `(vec (list xs...))` is `(vector xs...)`, and `vec` changes nothing on a vector |
| Core.NameAndNamespaceRoundTrip | src/clojure/core.rs:550-763 | `name` and `namespace` take apart what two-argument `keyword` and `symbol` build from two strings |
| Core.QualifiedRebuilt | src/clojure/core.rs:550-763 | a qualified keyword or symbol is rebuilt from its `namespace` and `name`, while the one-argument form keeps only the name |
| Core.KeywordSymbolNames | src/clojure/core.rs:550-665 | `keyword` and `symbol` turn into each other by their names |
| Rt.SetCurrentNs | src/rt.rs:238-242 | panics exactly when the core namespace has no var `*ns*`; otherwise the named namespace is found or created (fresh and added only when missing) and becomes the current namespace; no namespace's vars are added or removed and no var but `*ns*` changes its value |
| Rt.InNsName | src/clojure/core.rs:999-1012 | `in-ns` accepts exactly a string, an unqualified keyword or symbol, or a namespace handle; the name is the whole name of the first three and the namespace's own name for a handle |
| Rt.InNs | src/clojure/core.rs:984-1019 | with a countable argument list, `in-ns` yields exactly when there is one argument that names a namespace and the core namespace has `*ns*`; it then yields nil and the named namespace (created when missing) is current, and otherwise it panics with nothing changed; no var but `*ns*` changes |
| Rt.DeclareTargetAsWritten | src/clojure/core.rs:229-231 | as written, `declare` writes only to the namespace registered under the current one's name when that is a different object from the current namespace (which is still borrowed) and no caller holds it |
| Rt.DeclareTarget | src/clojure/core.rs:229-231 | as intended, `declare` writes to the namespace registered under the current one's name, exactly when it is registered and no caller holds it |
| Rt.DeclareConflictsAsWritten | src/clojure/core.rs:229-231 | when the current namespace is the one registered under its name, `declare` as written always panics (a double borrow), while the intended one writes to it unless a caller holds it |
| Rt.DeclaredNamesStep | src/clojure/core.rs:233-242 | one more argument of `declare` keeps "all are unqualified symbols" exactly when it is one, and adds its name to the declared names |
| Rt.DeclareEach | src/clojure/core.rs:233-242 | yields nil exactly when every argument is an unqualified symbol, and panics otherwise; on success the namespace's interned map is the old one with a fresh unbound var under every declared name and every other entry unchanged; its referred vars, every other namespace and every existing var's value are unchanged |
| Rt.Declare | src/clojure/core.rs:215-245 | `declare` (intended): a panic with nothing changed when there is no target namespace; otherwise nil exactly when every argument is an unqualified symbol, with each named var fresh and unbound in the target and no existing var changed |
| Rt.DeclareAsWritten | src/clojure/core.rs:215-245 | `declare` as written: a panic with nothing changed whenever the as-written target is refused; otherwise the same loop as the intended one |
| Rt.Eval2 | src/rt.rs:104-200 | `eval2` yields exactly what `Semantics.Denote` describes, changing nothing, whenever that description is determined; an evaluation error arises only from a symbol; a vector gives a vector of the same length, a set a set and a map a map |
| Rt.Eval | src/rt.rs:69-94 | `eval` yields exactly what `Semantics.DenoteNil` describes (every evaluation error becomes nil) whenever that is determined |
| Rt.EvalApplication | src/rt.rs:193-195 | an ordinary non-empty list evaluates as `Semantics.DenoteApplication` says: the arguments left to right, then the head, then `apply` |
| Rt.EvalItems | src/rt.rs:149-156 | the items of a list or vector from a given position, each through `eval` left to right, yield what `Semantics.DenoteItems` describes, and one value per item when every item ran |
| Rt.EvalItemsFrom | src/rt.rs:151-154 | the loop over items: when each item's outcome is known, the loop yields the run `Semantics.RunItems` of those outcomes and changes nothing |
| Rt.EvalSet | src/rt.rs:157-164 | the members of a set through `eval` yield the set `Semantics.DenoteSet` describes whenever it is determined, whatever order the members are visited in |
| Rt.EvalEntry | src/rt.rs:168-174 | one map entry: when its key evaluates to itself, the entry is the key with its evaluated value, or stops as that value does |
| Rt.EvalEntries | src/rt.rs:168-175 | when every key evaluates to itself, the loop over the entries, in any order, yields the map of evaluated values, or stops as one of the values does |
| Rt.VisitEntry | src/rt.rs:168-174 | one visited entry adds its key with its evaluated value to the entries already evaluated, or stops as that value does |
| Rt.EvalMap | src/rt.rs:165-177 | the entries of a map through `eval` yield the map `Semantics.DenoteMap` describes whenever it is determined |
| Rt.Apply | src/rt.rs:251-284 | `apply`: a keyword or a library function that only reads its arguments yields what `Semantics.ApplySpec` says; a symbol that does not resolve to a bound var, or whose second argument is not a list, panics; a resolved symbol applies its value to the items of that list |
| Rt.EvalBuiltin | src/clojure/core.rs:517-540 | `eval` as a library function: any count but one panics; one argument evaluates, one level deeper, to what `Semantics.DenoteNil` describes |
| Rt.Invoke | src/rt.rs:286-293 | a library function called with its arguments: a pure one yields `Core.Call`, `eval` behaves as `Rt.EvalBuiltin` says, `refer` always panics, and the functions this model leaves out stop as left out |
| Rt.NameThroughCore | src/clojure/core.rs:104-107 | when the core var `name` holds the library function `name`, the namespace name is the argument's whole name, and a panic when it has none |
| Rt.FindNs | src/clojure/core.rs:91-114 | `find-ns`: any count but one panics; otherwise the namespace registered under the argument's name, nil when there is none, with nothing changed |
| Rt.RemoveNs | src/clojure/core.rs:117-139 | `remove-ns`: any count but one panics; otherwise the name is unregistered and the namespace it had (or nil) is returned; no var changes |
| Rt.CreateNs | src/clojure/core.rs:142-166 | `create-ns`: any count but one panics; otherwise the namespace registered under the name, registered fresh and empty when missing and the registry otherwise unchanged; no var changes |
| Semantics.OrNil | src/rt.rs:75-93 | `eval` keeps how `eval2` ends: a value is kept, every `EvalError` (no such var, unbound var, invalid arity) becomes nil, and a stop stays the same stop |
| Semantics.NsPlace | src/rt.rs:231 | the contents of `clojure.core/*ns*`, nothing when that var does not resolve |
| Semantics.CurrentNs | src/rt.rs:230-236 | `current_ns` succeeds exactly when `*ns*` holds a handle to a namespace, and that namespace is the one it holds; it panics otherwise |
| Semantics.Qualify | src/rt.rs:125-146 | a qualified symbol is looked up by itself; an unqualified one is qualified by the current namespace's name, and panics exactly when there is no current namespace |
| Semantics.Lookup | src/rt.rs:125-146 | a symbol's lookup: `NoSuchVar` exactly when nothing resolves, `UnboundVar` exactly when the var is unbound (both naming the qualified symbol), and otherwise the value the var holds |
| Semantics.ApplySpec | src/rt.rs:251-284 | a keyword applied to a map looks itself up there, with the second argument (or nil) when missing, and panics when the first argument is missing or not a map; only symbols and state-changing library functions are left undescribed; nil, booleans, numbers, strings, collections, vars and handles panic |
| Semantics.Denote | src/rt.rs:104-200 | `eval2` as a description of the environment's state: an evaluation error only comes from a symbol; a vector yields a vector of the same length, a set a set, a map a map with the same keys |
| Semantics.DenoteApplication | src/rt.rs:193-195 | an application that ends in a value ends in a value, never an evaluation error |
| Semantics.DenoteNil | src/rt.rs:69-94 | `eval` is determined exactly when `eval2` is, and is its `OrNil` |
| Semantics.DenoteItems | src/rt.rs:149-156 | the items from `lo` to `hi` that all run yield one value each |
| Semantics.DenoteSet | src/rt.rs:157-164 | a set that stops stops for the reason of one of its members, and a set that evaluates is empty exactly when the original is; which members it holds is stated by `SemanticsFacts.SetElementwise` |
| Semantics.DenoteMap | src/rt.rs:165-177 | a map of keys that evaluate to themselves yields a map with the same keys |
| Semantics.RunItems | src/rt.rs:151-154 | a left-to-right run over outcomes that ends in values has one per outcome |
| Semantics.RunItemsPrefix | src/rt.rs:151-154 | when a run over items is determined, every shorter run from the same start is too, and a shorter run that stops decides the whole run |
| Semantics.RunItemsNext | src/rt.rs:151-154 | a run that has evaluated up to an item continues with that item's value, or stops for its reason |
| Semantics.RunAll | src/rt.rs:157-177 | a determined unordered run has every outcome determined, and it ends in values only when every one ran |
| Semantics.RunAllOutcomes | src/rt.rs:157-177 | a determined unordered run ends in values exactly when every element ran, and otherwise stops for the reason of any element that stops |
| SemanticsFacts.RunItemsValues | src/rt.rs:151-154 | a run over items that ends in values yields the value of each item, in order, one per item |
| SemanticsFacts.RunItemsAllRan | src/rt.rs:151-154 | when every item evaluates to a value, the run ends in values |
| SemanticsFacts.FirstStopDecides | src/rt.rs:151-154 | the first item that stops, all before it evaluating, decides the run, whatever comes after it |
| SemanticsFacts.SelfEvaluating | src/rt.rs:110-115 | nil, booleans, numbers, strings and keywords (and, at 197-198, callables and handles) evaluate to themselves in every state |
| SemanticsFacts.VarEvaluation | src/rt.rs:119-124 | a var evaluates to its value when bound and to itself when unbound |
| SemanticsFacts.SpecialForms | src/rt.rs:180-191 | the empty list is itself, a `comment` form is nil, a `quote` form is its second element unevaluated and panics when it has none |
| SemanticsFacts.UnqualifiedLooksInCurrent | src/rt.rs:125-140 | an unqualified symbol is looked up exactly as the symbol qualified by the current namespace's name, errors included, and panics with no current namespace |
| SemanticsFacts.MissingSymbolIsNil | src/rt.rs:77-84 | a symbol that names nothing or an unbound var is an `eval2` error naming the qualified symbol, and nil through `eval` |
| SemanticsFacts.VectorElementwise | src/rt.rs:149-156 | a vector that evaluates yields the vector of what each of its items evaluates to through `eval`, in order |
| SemanticsFacts.VectorEvaluates | src/rt.rs:149-156 | a vector whose items all evaluate evaluates |
| SemanticsFacts.NestedFailureIsNil | src/rt.rs:152 | an item whose lookup fails does not fail its vector: the item becomes nil in its place |
| SemanticsFacts.VectorStopsAtFirst | src/rt.rs:151-154 | the first item of a vector that stops, all before it evaluating, stops the vector for its reason |
| SemanticsFacts.SetElementwise | src/rt.rs:157-164 | a set that evaluates yields exactly the values its members evaluate to through `eval` |
| SemanticsFacts.MapElementwise | src/rt.rs:165-177 | a map that evaluates yields a map with the same keys, each key evaluating to itself and each entry's value to the evaluated value |
| SemanticsFacts.ArgumentsFirst | src/rt.rs:193-195 | an application evaluates its arguments before its head: an argument that stops stops the form, and once they evaluate a head that stops stops it |
| SemanticsFacts.ArgumentStopsApplication | src/rt.rs:193-195 | the first argument that stops, the earlier ones evaluating, stops the application for its reason |
| SemanticsFacts.NoFuelNoApplication | src/rt.rs:193-195 | with no budget left an ordinary application stops before evaluating anything |
| CoreEnv.Names | src/clojure/core.rs:1035-1058 | the var names given by the library's names are exactly their unqualified symbols |
| CoreEnv.LibraryNamesCore | src/clojure/core.rs:1047 | once the library is bound, the core var `name` holds the library function `name`, which `find-ns`, `remove-ns` and `create-ns` rely on |
| CoreEnv.HoldsBinds | src/clojure/core.rs:1035-1058 | vars that hold a callable for every name of the table bind the whole table in the core namespace |
| CoreEnv.NamesOneMore | src/clojure/core.rs:1035-1058 | interning one more name adds exactly its var name to those already interned |
| CoreEnv.InternOne | src/clojure/core.rs:1035 | one `intern` of the chain: the core namespace interns a callable for the function under its name; no other namespace changes, and when the name was new no existing var changes |
| CoreEnv.InternAll | src/clojure/core.rs:1035-1058 | the chain of `intern`s: the core namespace's interned names grow by exactly the library's names, the other entries and namespaces stay, and on a core namespace holding only `*ns*` every name holds its function and no existing var changes |
| CoreEnv.PrepareCore | src/clojure/core.rs:1027-1030 | the core namespace is found or created and a fresh unbound `*ns*` is declared in it; every other namespace and every existing var is unchanged |
| CoreEnv.AddLibrary | src/clojure/core.rs:1024-1064 | a table of functions added as `add_to_env` adds its own: the core namespace exists, interns `*ns*` and every name of the table, and is current |
| CoreEnv.AddToEnv | src/clojure/core.rs:1024-1064 | `add_to_env`: the registry gains the core namespace and nothing else, the other namespaces are untouched, the core namespace interns `*ns*` and the 24 library names and becomes current; on an environment without a core namespace every library function is bound under its name and no existing var changes |
| CoreEnv.NewEnv | src/clojure/core.rs:1067-1071 | `new_env`: a fresh environment whose only namespace is the core one, current and binding every library function under its name |
| Reader.FindChar | src/without_eval.rs:199-200 | `take_until` of one character: the index of its first occurrence, or nothing exactly when it does not occur |
| Reader.Ws0 | src/without_eval.rs:446-449 | `ws0` drops exactly the leading separators (comma, space, tab, carriage return, line feed): what it leaves is a suffix that starts with none |
| Reader.Ws1 | src/without_eval.rs:452-455 | `ws1` succeeds exactly when the text starts with a separator, and then leaves what `ws0` leaves, strictly shorter |
| Reader.CommentAsWritten | src/without_eval.rs:196-206 | `try_parse_comment` as written: a read comment always consumes input |
| Reader.Comment | src/without_eval.rs:196-206 | the intended comment reads exactly when the text, after separators, starts with `;`, and consumes input |
| Reader.CommentStopsAtLineEnd | src/without_eval.rs:198-203 | the intended comment runs exactly to the first line end (or the end of the input) and then drops separators |
| Reader.CommentSwallowsLaterLines | src/without_eval.rs:199 | as written, `;a`, a line feed, `b` and a carriage return is one comment: the `\r` on the later line ends it, while the intended comment leaves `b` to be read |
| Reader.CommentAtEndOfInputRefused | src/without_eval.rs:198-202 | as written, `;c` at the end of the input is no comment (`eof` needs empty input), while the intended comment reads it |
| Reader.SkipComments | src/without_eval.rs:227-232 | the inner `while let` drops comments until the text starts with none |
| Reader.Marker | src/without_eval.rs:211 | one `#_` marker between separators consumes input |
| Reader.MarkerRun | src/without_eval.rs:211-214 | `many1` of markers: how many markers are in a row, input consumed when there is one, and no marker left after them |
| Reader.ParseNil | src/without_eval.rs:272-276 | `nil` reads exactly when the text starts with `nil`, leaving everything after those three characters |
| Reader.ParseBoolean | src/without_eval.rs:279-286 | `true` and `false` read exactly when the text starts with them, leaving everything after them |
| Reader.WithoutUnderscores | src/without_eval.rs:301 | the text without `_`: no `_` is left and every other character is kept |
| Reader.ParseInt64 | src/without_eval.rs:306 | `parse::<i64>` of digits succeeds exactly when their value is below 2^63, and yields that value |
| Reader.NumberLength | src/without_eval.rs:290-299 | `recognize` takes nothing exactly when the text starts with neither a digit nor `-` and a digit, and otherwise a number's text |
| Reader.NumberValue | src/without_eval.rs:301-308 | text with a `.` is a float of the text without underscores; other text is an integer, or a panic (the failing `expect`) |
| Reader.ParseNumber | src/without_eval.rs:289-310 | `try_parse_number` reads exactly when the text starts with a digit or `-` and a digit, consuming input, and never fails |
| Reader.ParseString | src/without_eval.rs:313-317 | `try_parse_string` reads a string with no double quote in it and consumes input |
| Reader.SimpleSymbol | src/without_eval.rs:354-358 | `is_a` over the symbol characters: the longest non-empty run of them, nothing exactly when the text starts with none |
| Reader.SymbolParts | src/without_eval.rs:339-344 | a simple symbol and optionally `/` and another: present exactly when a simple symbol reads |
| Reader.ParseSymbol | src/without_eval.rs:338-351 | `try_parse_symbol` reads a symbol exactly when a simple symbol reads, and consumes input |
| Reader.ParseKeyword | src/without_eval.rs:320-335 | `try_parse_keyword` reads a keyword and consumes input |
| Reader.Somes | src/without_eval.rs:376 | `filter_map(identity)` keeps the present items, all of them in order when all are present |
| Reader.SomePairs | src/without_eval.rs:435-440 | the entries whose key and value are both present, all of them in order when all are |
| Reader.Parse | src/without_eval.rs:157-193 | `try_parse` reads nothing exactly for the empty input, a form only by consuming input, and never ends in a `Failure` |
| Reader.SkipNoise | src/without_eval.rs:164-171 | the `while let` over separators, comments and discards never lengthens the text |
| Reader.Discard | src/without_eval.rs:209-259 | `try_parse_discard` succeeds only by consuming input |
| Reader.DiscardForms | src/without_eval.rs:226-255 | the `for` loop over the markers: with at least one marker, success consumes input |
| Reader.ParseForm | src/without_eval.rs:174-186 | the alternatives, in order, read a form only by consuming input and never end in a `Failure` |
| Reader.ParseQuote | src/without_eval.rs:262-269 | `try_parse_quote` reads `(quote form)` only by consuming input |
| Reader.Bracketed | src/without_eval.rs:362-375 | opening text, items and closing character read only by consuming input |
| Reader.ParseList | src/without_eval.rs:361-383 | `try_parse_list` yields a list |
| Reader.ParseVector | src/without_eval.rs:386-408 | `try_parse_vector` yields a vector |
| Reader.ParseSet | src/without_eval.rs:411-421 | `try_parse_set` yields a set; which set is stated by `ReaderFacts.SetOf` and `ReaderFacts.SetReadsBack` |
| Reader.Items | src/without_eval.rs:364 | `separated_list0(ws1, try_parse)` never lengthens the text and never fails |
| Reader.ItemsAfter | src/without_eval.rs:364 | the later items of `separated_list0` never lengthen the text and never fail |
| Reader.Pair | src/without_eval.rs:428 | `separated_pair` reads only by consuming input |
| Reader.MapEntries | src/without_eval.rs:428 | the entries of a map never lengthen the text and never fail |
| Reader.ParseMap | src/without_eval.rs:424-443 | `try_parse_map` yields a map; which map is stated by `ReaderFacts.MapOf` and `ReaderFacts.MapReadsBack` |
| ReaderText.Readable | src/value.rs:665-678 | the values the reader reads back (nil, booleans, integers, strings without a double quote, symbols and keywords whose parts the reader accepts, and lists, vectors, sets and maps of readable values) all have a display |
| ReaderText.ShowEdges | src/value.rs:665-678 | a printed readable value starts and ends with a character that is no separator or `;`, and a `#` at its start is the one of `#{`, never of `#_` |
| ReaderText.SetDisplay | src/set.rs:120-131 | a set displays as `#{`, its members in the order `Values.Enumerate` lists them separated by spaces, and `}`; its members are readable items when they are readable values |
| ReaderText.MapDisplay | src/map.rs:273-284 | a map displays as `{`, its entries in the order of `Maps.Entries`, each key and value separated by a space and the entries by `, `, and `}` |
| ReaderText.IntegerLiteral | src/without_eval.rs:289-310 | an optional `-`, a digit, then digits and `_`, followed by a delimiter: the value of the digits without `_`, signed, or a panic beyond `i64` |
| ReaderText.IntegerLeaves | src/without_eval.rs:180-182 | the display of an `i64` is read by `try_parse_number` as that integer, and by no alternative before it |
| ReaderText.StringLeaves | src/without_eval.rs:180-183 | a quoted text without a double quote is read by `try_parse_string` as that string, and by no alternative before it |
| ReaderText.SymbolLeaves | src/without_eval.rs:180-185 | a readable symbol's display is read by `try_parse_symbol` as that symbol, and by no alternative before it |
| ReaderText.KeywordLeaves | src/without_eval.rs:180-184 | a readable keyword's name after `:` or `::` is read by `try_parse_keyword` as that keyword, and by no alternative before it |
| ReaderFacts.ReadsBack | src/without_eval.rs:157-193 | the display of a readable value, followed by a delimiter, reads back as exactly that value, leaving the delimiter |
| ReaderFacts.SetReadsBack | src/without_eval.rs:411-421 | the display of a set of readable values, followed by a delimiter, reads back as exactly that set, whatever order the members are shown in |
| ReaderFacts.MapReadsBack | src/without_eval.rs:424-443 | the display of a map of readable keys and values, followed by a delimiter, reads back as exactly that map: its entries are read in order and collected again |
| ReaderFacts.PairsReadBack | src/without_eval.rs:428 | the printed entries of a map, before the closing `}`, read back in order as the entries with key and value both present |
| ReaderFacts.EntryReadsBack | src/without_eval.rs:428 | one printed entry, a key, a space and its value, reads back by `separated_pair` as that key and value |
| ReaderFacts.SetOf | src/without_eval.rs:411-421 | when `#{`, the items and `}` read, `try_parse_set` yields the set of the present items |
| ReaderFacts.MapOf | src/without_eval.rs:424-443 | when `{`, the entries and `}` read, `try_parse_map` yields the map built by inserting the present pairs in order |
| ReaderFacts.ReadManyReadsBack | src/without_eval.rs:11-33 | printed readable values separated by spaces read back as exactly those values, in order |
| ReaderFacts.PrintedIsTrimmed | src/without_eval.rs:12 | `trim` leaves printed readable values as they are |
| ReaderFacts.ReadManyOfPrinted | src/without_eval.rs:11-33 | `read_many` of printed readable values gives back every value, in order |
| ReaderFacts.QuoteReads | src/without_eval.rs:262-266 | `'` and a text that reads as a form read as `(quote form)`, leaving what the form leaves |
| ReaderFacts.QuoteAtEndPanics | src/without_eval.rs:267 | a lone `'` panics |
| ReaderFacts.DoubleColonIsDropped | src/without_eval.rs:321-322 | `::` in front of a keyword reads exactly like `:`: both are dropped |
| ReaderFacts.NilNeedsNoBoundary | src/without_eval.rs:272-276 | `nil` reads as nil whatever follows it, which is left for the next read |
| ReaderFacts.BooleanNeedsNoBoundary | src/without_eval.rs:279-286 | `true` and `false` read as booleans whatever follows them |
| ReaderFacts.DiscardNeedsAForm | src/without_eval.rs:239-241 | `#_` with only separators after it is a `MissingDiscardForm` failure, and `try_parse` then answers `Error` |
| ReaderFacts.CommentIsSkipped | src/without_eval.rs:164-171 | a comment line before a printed value is skipped and the value is read |
| ReaderFacts.DiscardAndComment | src/without_eval.rs:464-485 | `#_`, a comment line and two printed values: the comment is skipped, the first value discarded and the second read |
| ReaderFacts.CommentedDiscard | src/without_eval.rs:226-254 | `#_` then a comment before a form: the comment is skipped and the form discarded |
| ReaderFacts.NumberForm | src/without_eval.rs:182 | a text that starts like a number is read as `try_parse_number` reads it |
| ReaderFacts.UnderscoresAreIgnored | src/without_eval.rs:301 | `1_000` reads as 1000 |
| ReaderFacts.TrailingDotIsLeft | src/without_eval.rs:294-298 | `1.` not followed by a digit reads as 1 and leaves the `.` |
| ReaderFacts.OverflowPanics | src/without_eval.rs:306 | digits beyond `i64` make the read panic |
| ReaderFacts.ClosingReadsNothing | src/without_eval.rs:365 | a closing bracket is no form, which is what ends the items of a bracketed form |
| ReaderFacts.MarkerIsNoForm | src/without_eval.rs:174-186 | text starting with `#_` is no form |
| ReaderFacts.NoForm | src/without_eval.rs:174-186 | text that starts with none of the alternatives' first characters is no form |
| Read.Trim | src/without_eval.rs:12 | `str::trim`: a slice of the text with no white space at either end, where everything before and after the slice is white space, so only leading and trailing white space is removed |
| Read.TrimKeepsTrimmedText | src/without_eval.rs:12 | text with no white space at either end is left as it is |
| Read.ReadOne | src/without_eval.rs:5-8 | `read_one` yields nothing exactly for the empty input, never reports a missing discard form, and a value it yields is the form `try_parse` reads |
| Read.ReadManySpec | src/without_eval.rs:11-33 | `read_many` of empty text is no values, and never more values than characters |
| Read.ReadOneStartsReadMany | src/without_eval.rs:5-33 | the first value `read_many` returns is the one `read_one` returns |
| Read.ReadManyUnfolds | src/without_eval.rs:19-24 | `read_many` is the form `try_parse` reads followed by `read_many` of what it leaves |
| Read.TryParse | src/without_eval.rs:157-193 | the loop of `try_parse` reads exactly what `Reader.Parse` describes |
| Read.SkipCommentLoop | src/without_eval.rs:227-232 | the `while let` over comments ends where `Reader.SkipComments` says |
| Read.DiscardTurn | src/without_eval.rs:226-255 | one turn of the `for` loop: a form that reads leaves one discard fewer after it, strictly shorter text; any other outcome is where `Reader.DiscardForms` ends |
| Read.TryParseDiscard | src/without_eval.rs:209-259 | the loops of `try_parse_discard` end as `Reader.Discard` describes |
| Read.ReadMany | src/without_eval.rs:11-33 | the loop of `read_many` returns `Read.ReadManySpec` of the trimmed text |

## Left out

- Floats: a float is kept as the text it was read from. Parsing with `f64::from_str`, float equality, ordering and display are not modelled.
- The `Display` of vars, callables and handles prints pointers (`{:#p}`). It is not modelled, so only values without those have a display.
- `Hash` is left out; every method of it is `todo!()`.
- The order in which a set is displayed or a map is iterated is not modelled. `Values.Enumerate` lists members in an order that the proofs never depend on.
- `Namespaces.Namespace.Interns` and `Envs.Env.Namespaces` return a set of pairs, because the hash map iteration order is not modelled.
- Values.Compare: two vars compare by their contents, which live on the heap, and two sets or two maps compare by the rpds `cmp` of their trees, whose order is not modelled; the model answers no ordering for these pairs.
- `eval2` of a set or a map: the model does not fix the order in which members and entries are evaluated.
  - `Semantics.DenoteSet` describes a set only when its members stop for at most one reason.
  - `Semantics.DenoteMap` describes only maps whose keys evaluate to themselves, because a map whose keys change can have two keys collide. The evaluator's methods then promise only that the environment stays valid.
- Stack depth: `fuel` bounds the nesting of applications, in place of the stack exhaustion of the source. Every method that evaluates says what it yields once the budget is enough, and `OutOfFuel` otherwise.
- `EvalError::InvalidArity` is declared but never produced, as in the source, where `check_arity`'s `Err` is always unwrapped into a panic.
- `Semantics.Denote` is `None` for an application of a symbol or of a library function that changes the environment. The methods of `Rt` state those cases in their own contracts.
- The library functions `keys`, `vals`, `map`, `apply`, `ns-map`, `ns-publics` and `slurp` rely on `Rc<dyn Any>` downcasts, on closures or on file I/O. They stop with `LeftOut`.
- `prn` prints to the console; it is not modelled.
- Core.Call: checks each arity with the intended `Arity.CheckArity` and answers `second` with the intended `Core.Second`. As written, `(vector)` and `(vector 1 2)` panic at src/rt.rs:360, because a variadic arity accepts nothing, and `(second [1])` panics at src/clojure/core.rs:385-387. The model gives `[]`, `[1 2]` and nil. These as-written panics are modelled by `Arity.CheckArityAsWritten` and `Core.SecondAsWritten` only.
- Core.Conj: with two or more arguments it pushes, as intended, where the arity `#{0 1 [2]}` as written refuses the count and panics (src/rt.rs:360); `(conj [] 1)` is `[1]` here and a panic in the source. Its docstring (src/clojure/core.rs:795) promises that `(conj nil item)` is `(item)`; the code panics there, first in the arity check and, past it, in the `unimplemented!` of src/clojure/core.rs:832. The model follows the code: `Core.Conj` panics when the first of two or more arguments is neither a list nor a vector.
- Core.VectorOf: the arguments as a vector for every count, as intended; as written the arity `#{[0]}` refuses every count, so `vector` always panics.
- Semantics.ApplySpec: describes a pure library function through `Core.Call`, so it inherits the intended arity check and `second` above; through it so do `Rt.Apply`, `Rt.Eval2` and `Rt.Eval`.
- Rt.Invoke: calls `Core.Call` for the pure functions and the intended `Rt.Declare` for `declare`. As written, `(declare x)` panics with a double borrow whenever the current namespace is registered under its own name (src/clojure/core.rs:229-231), which is so in every environment `new_env` or `in-ns` leaves; that case is modelled by `Rt.DeclareAsWritten` only.
- Values.ValueEq: set members and map keys match by Dafny equality of values, not by the rpds lookup under the `Ord` of src/value.rs:788-806. In the source, two callables compare `Equal`, so `#{first}` equals `#{last}` and `{first 1}` equals `{last 1}`; a handle as a member or key is found too. A lookup in a tree that mixes variants can also miss a member, for the reason given under `Sets.FromSeq`. Map values are compared with `ValueEq`, as in the source.
- ValueEqIsIdentity: holds of the model's equality only. In the source `#{first}` equals `#{last}`, so equal values can differ in the members of a set or the keys of a map (see `Values.ValueEq`).
- ItemsEqIsIdentity: the same gap, through the elements: `[#{first}]` equals `[#{last}]` in the source.
- ContainsIsMembership: "`contains` implies membership" shares the gap of `ValueEqIsIdentity`: `[#{first}]` contains `#{last}` in the source, though `#{last}` is not one of its elements.
- Sets.FromSeq: membership is Dafny equality of values, not the red-black tree search of rpds under the `Ord` of src/value.rs:788-806. That order is not total: values of different variants compare `Less` both ways, and two callables or two handles compare `Equal`. So the source can keep a member twice, as in `#{1 :a "s" 1}`, where a rotation puts `:a` at the root and the second 1 is searched for on the side the first is not on. It can also merge distinct callables, as in `#{first last}`, which has one member. The model does neither.
- Sets.FromSeqSize: "as large exactly when no element repeats" holds of mathematical sets; for the reason above the source's set can be larger than the distinct elements (`#{1 :a "s" 1}` has four members) or smaller (`#{first last}` has one).
- Maps.FromPairs: the same gap as `Sets.FromSeq` for the keys of a map.
- Reader.ParseSet: builds its set with `Sets.FromSeq`, so it shares that gap.
- Reader.ParseMap: builds its map with `Maps.FromPairs`, so it shares that gap.
- Rt.EvalSet: collects the evaluated members as a mathematical set, so it shares the gap of `Sets.FromSeq`; `#{first last}` evaluates to two members here.
- Rt.EvalMap: collects the evaluated entries as a mathematical map, so it shares the gap of `Maps.FromPairs`.
- `refer` panics on every path (`todo!`), and the model says exactly that.
- A panic ends the run in the model. It does not unwind the borrows held by callers.
- `tracing` and logging calls have no effect and are left out.
- Maps.MutableMap.MapEntriesMut: requires that the rewritten keys stay apart from each other and from the keys not rewritten yet, and then yields `map_entries`. The source overwrites each key inside the tree node where it was found (src/map.rs:112) and never re-sorts the tree. With more than one entry, a later `get_entry_mut(..).unwrap()` then searches a tree that is no longer ordered, can miss a key still to be rewritten, and panics. The model assumes that no such panic happens: whether one does depends on the shape of the tree under the order, which is not modelled.
- Maps.MutableMap.MapKeysMut: the same gap at src/map.rs:126. For example, take `{1 :a, 2 :b}` with 1 inserted first, so 2 sits right of 1, and `k + 10`. Key 1 becomes 11, the search for 2 then turns left of 11, finds nothing and panics, while the model yields `{11 :a, 12 :b}`.
- `CoreEnv.AddToEnv`: that every library function is bound under its name, and that no existing var changes, is stated only for an environment without a core namespace. `new_env` is such a case.
- `CoreEnv.NewEnv` states `fresh(env)` and the registry, not the identity of each new object.
- `CoreEnv.Library` is a map from names to functions. No name is interned twice, so the order of the `intern` chain does not matter.
- `Reader.SkipNoise` and the rest of the reader use the intended `Reader.Comment`. The comment as written is `Reader.CommentAsWritten` (see Findings).
- `Read.ReadManySpec` can panic. `read_many` always returns `Ok`, but a panic inside `try_parse` (an integer beyond `i64`, or a lone `'`) is not caught.
- The CLI and REPL (`src/main.rs`), the macros, `with_eval.rs`, `edn.rs`, `src/cljx/*` and `utils.rs` are not part of this model.
- The persistent-structure internals of rpds, archery and nom are not modelled. Collections are mathematical sequences, sets and maps.

## Findings

| source | as written | input that shows it | evidently intended | confidence | as-written member | corrected member |
|---|---|---|---|---|---|---|
| src/rt.rs:360 | the variadic test asks whether the vector `[n]` is an integer, which it never is, so a variadic arity never accepts anything | `(vector 1 2)` against `#{[0]}`, and `(conj [] 1 2)` against `#{0 1 [2]}` | a variadic `[n]` accepts every count of at least `n` | high, not executed | Arity.CheckArityAsWritten, Arity.VariadicIsRefusedAsWritten | Arity.CheckArity, Arity.ConjAritiesAsWrittenAndIntended |
| src/clojure/core.rs:385-387 | a non-empty list or vector yields element 1 through `unwrap`, which panics when there is only one element | `(second [1])` | `(first (next x))`, which is nil | high, not executed | Core.SecondAsWritten, Core.SecondOfOneElement | Core.Second |
| src/clojure/core.rs:229-231 | the current namespace stays borrowed while the same `RefCell` is borrowed mutably, which panics whenever the current namespace is registered under its own name | `(declare x)` after `in-ns` | a fresh unbound var in the current namespace | medium, not executed | Rt.DeclareTargetAsWritten, Rt.DeclareAsWritten, Rt.DeclareConflictsAsWritten | Rt.DeclareTarget, Rt.Declare |
| src/map.rs:130-141 | the new value of each entry is `f` of its key, not of its value | `{1 2}` with the identity gives `{1 1}` | `map_values`, which gives `{1 2}` | medium, not executed | Maps.MutableMap.MapValuesMutAsWritten, Maps.MapValuesMutDiffers | Maps.MutableMap.MapValuesMut |
| src/without_eval.rs:198-202 | the comment ends at the first `\r` anywhere in the rest of the input, even on a later line, and is refused at the end of the input without a line end, because `eof` needs empty input | `;a` + line feed + `b` + carriage return; `;c` | a comment ends at the first line end, or at the end of the input | medium, not executed | Reader.CommentAsWritten, Reader.CommentSwallowsLaterLines, Reader.CommentAtEndOfInputRefused | Reader.Comment, Reader.CommentStopsAtLineEnd |
