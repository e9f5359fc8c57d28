/** The array-backed stack of Pilha_Estatica/main.c: the struct TPilha with
    its fixed array Item of MAXTAM ints and its top index Topo, and the five
    functions that initialise, test and update it in place. */
module StaticStack {
  import opened StackSpec

  class TPilha {
    /** Item[MAXTAM]: the slots; the array itself never changes. */
    const item: array<int>
    /** Topo: index of the top item, -1 when the stack is empty. */
    var topo: int

    /** The invariant every operation keeps once the stack is initialised. */
    ghost predicate Valid()
      reads this
    {
      item.Length == MaxTam && -1 <= topo <= MaxTam - 1
    }

    /** The abstract stack: Item[0..Topo], bottom first. */
    ghost function Contents(): (s: seq<int>)
      reads this, item
      requires Valid()
      ensures |s| == topo + 1
    {
      item[..topo + 1]
    }

    /** The malloc in the source's driver: a fresh struct whose Topo holds
        whatever the memory held, so it is not yet a valid stack. */
    constructor Alloc()
      ensures fresh(item) && item.Length == MaxTam
    {
      item := new int[MaxTam];
    }

    /** TPilha_Inicia: make the stack empty, whatever Topo held before. */
    method Init()
      requires item.Length == MaxTam
      modifies this
      ensures Valid() && topo == -1 && Contents() == []
      ensures IsEmpty() == 1
    {
      topo := -1;
    }

    /** TPila_Vazia: 1 when the stack is empty, otherwise 0. */
    function IsEmpty(): (r: int)
      reads this, item
      ensures r == 0 || r == 1
      ensures r == 1 <==> topo == -1
      ensures Valid() ==> (r == 1 <==> Contents() == [])
    {
      if topo == -1 then 1 else 0
    }

    /** TPila_Cheia: 1 when every slot is in use, otherwise 0. */
    function IsFull(): (r: int)
      reads this, item
      ensures r == 0 || r == 1
      ensures r == 1 <==> topo == MaxTam - 1
      ensures Valid() ==> (r == 1 <==> |Contents()| == MaxTam)
    {
      if topo == MaxTam - 1 then 1 else 0
    }

    /** TPilha_Insere: store x in the slot above the top; on a full stack
        report the error (ok is false) and change nothing. */
    method Push(x: int) returns (ok: bool)
      requires Valid()
      modifies this, item
      ensures Valid()
      ensures ok <==> old(IsFull()) == 0
      ensures ok ==> topo == old(topo) + 1 && item[topo] == x
      ensures !ok ==> topo == old(topo)
      ensures item[..] == if ok then old(item[..])[topo := x] else old(item[..])
      ensures (Contents(), if ok then Pushed else Full) == Step(old(Contents()), PushOp(x))
    {
      ghost var before := Contents();
      if IsFull() == 1 {
        ok := false;
      } else {
        topo := topo + 1;
        item[topo] := x;
        ok := true;
        assert Contents() == before + [x];
      }
    }

    /** TPilha_Retira: remove and return the top item; on an empty stack
        report the error (None, since the source returns no value then)
        and change nothing. The array is never written. */
    method Pop() returns (r: Option<int>)
      requires Valid()
      modifies this
      ensures Valid()
      ensures item[..] == old(item[..])
      ensures r.None? <==> old(IsEmpty()) == 1
      ensures r.Some? ==> r.value == old(item[topo]) && topo == old(topo) - 1
      ensures r.None? ==> topo == old(topo)
      ensures (Contents(), if r.Some? then Popped(r.value) else Empty) == Step(old(Contents()), PopOp)
    {
      ghost var before := Contents();
      if IsEmpty() == 1 {
        r := None;
      } else {
        r := Some(item[topo]);
        topo := topo - 1;
        assert Contents() == before[..|before| - 1];
      }
    }
  }

  /** The source's driver: push 1, 2 and 3 on a fresh stack, then pop,
      which yields 3. */
  method PushThreePopOne() returns (aux: Option<int>)
    ensures aux == Some(3)
  {
    var p := new TPilha.Alloc();
    p.Init();
    var ok := p.Push(1);
    ok := p.Push(2);
    ok := p.Push(3);
    aux := p.Pop();
  }
}
