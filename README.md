# Static stack (Pilha Estática) in Dafny

A model of the array-backed stack of `Pilha_Estatica/main.c`: a struct
`TPilha` holding a fixed array `Item` of `MAXTAM` (100) ints and a top index
`Topo`, with the operations `TPilha_Inicia`, `TPila_Vazia`, `TPila_Cheia`,
`TPilha_Insere` and `TPilha_Retira`.

- `static_stack.dfy`, module `StaticStack`: the class `TPilha` with the
  array `item` and the mutable index `topo`. `Valid()` is the invariant
  `-1 <= Topo <= MAXTAM-1`; the ghost function `Contents()` is the abstract
  stack `Item[0..Topo]`, bottom first. `Push` and `Pop` update the object in
  place and state their new `topo`, their new array and the new abstract
  stack. The source's two error messages become results: `Push` returns
  `ok == false` on a full stack, `Pop` returns `None` on an empty one.
- `stack_spec.dfy`, module `StackSpec`: the same stack as a value
  (`seq<int>`), one operation `Step` and whole runs of operations `Run` and
  `Replies`, with the LIFO, capacity and size lemmas. The class's methods are
  proved to behave as `Step` does on `Contents()`.

## Model

| member | source | states |
|---|---|---|
| `StackSpec.Step` | Pilha_Estatica/main.c:31-49 | a push is refused exactly on a full stack and a pop exactly on an empty one, and a refused operation changes nothing; a push puts its value on top of the untouched old items; a pop returns the top item and keeps the rest; the capacity bound is kept |
| `StackSpec.PushPopRoundTrip` | Pilha_Estatica/main.c:31-48 | a push of x on a non-full stack followed by a pop returns x and restores the original stack |
| `StackSpec.RunAppend` | Pilha_Estatica/main.c:31-49 | running two lists of operations in turn is the same as running their concatenation, state and replies |
| `StackSpec.RunBounded` | Pilha_Estatica/main.c:23-38 | no sequence of pushes and pops takes the stack past MAXTAM items |
| `StackSpec.RunSize` | Pilha_Estatica/main.c:31-49 | the height after a run is the initial height plus the accepted pushes minus the accepted pops |
| `StackSpec.PushesFit` | Pilha_Estatica/main.c:31-38 | pushes that fit are all accepted and stack their values in order on top of the old items |
| `StackSpec.PopsUnstack` | Pilha_Estatica/main.c:40-49 | popping as many times as values were stacked returns them last first and leaves the stack below |
| `StackSpec.LastInFirstOut` | Pilha_Estatica/main.c:31-61 | pushing xs and then popping once per value restores the stack and yields xs in reverse order |
| `StaticStack.TPilha.Contents` | Pilha_Estatica/main.c:5-9 | the abstract stack holds Topo + 1 items, Item[0..Topo] |
| `StaticStack.TPilha.Alloc` | Pilha_Estatica/main.c:52 | a fresh struct with an array of MAXTAM slots; Topo is left indeterminate |
| `StaticStack.TPilha.Init` | Pilha_Estatica/main.c:11-13 | from any state, Topo becomes -1, the invariant holds, the stack is empty and the emptiness test answers 1 |
| `StaticStack.TPilha.IsEmpty` | Pilha_Estatica/main.c:15-21 | answers 0 or 1, and 1 exactly when Topo is -1, that is when the abstract stack is empty |
| `StaticStack.TPilha.IsFull` | Pilha_Estatica/main.c:23-29 | answers 0 or 1, and 1 exactly when Topo is MAXTAM-1, that is when the stack holds MAXTAM items |
| `StaticStack.TPilha.Push` | Pilha_Estatica/main.c:31-38 | keeps the invariant; succeeds exactly when the stack was not full; on success Topo grows by one and Item[Topo] is x with every other slot unchanged; on a full stack neither Topo nor any slot changes; the abstract stack changes as Step says |
| `StaticStack.TPilha.Pop` | Pilha_Estatica/main.c:40-49 | keeps the invariant and never writes the array; fails (None) exactly on an empty stack, leaving Topo as it was; otherwise returns the old Item[Topo] and Topo drops by one; the abstract stack changes as Step says |
| `StaticStack.PushThreePopOne` | Pilha_Estatica/main.c:51-67 | on a fresh initialised stack, pushing 1, 2, 3 and popping yields 3 |

## Left out

- The `printf` error messages of `TPilha_Insere` and `TPilha_Retira` and the
  final `printf` of the driver: console output. The errors are modelled as
  results (`ok == false`, `None`, and the `Full` / `Empty` replies).
- `TPilha_Retira` on an empty stack falls off the end of a non-void function,
  so C gives its result no value; the model returns `None` and invents no
  integer.
- The items are C `int`s; the model stores them as unbounded `int`. The stack
  only copies items in and out and never computes with them, so no width
  matters. `Topo` stays in -1..99 under the invariant, so its width never
  matters either.
- `malloc` failure (a null pointer) is not modelled: `Alloc` always yields
  an object.
