/** The generic singly-linked list of ListaSensor.h. */
module LinkedList {
  import opened LinkedNode

  /** The value a visitor's captured state ends with after being shown s in order:
      the meaning of `iterar` with a stateful operation. */
  function FoldL<A, T>(f: (A, T) -> A, a: A, s: seq<T>): A
    decreases |s|
  {
    if s == [] then a else FoldL(f, f(a, s[0]), s[1..])
  }

  /** The visitor that records every element it is shown. */
  function Anotar<T>(vistos: seq<T>, x: T): seq<T>
  {
    vistos + [x]
  }

  /** Traversal shows each element exactly once, in insertion order. */
  lemma {:induction false} FoldLAnotar<T>(vistos: seq<T>, s: seq<T>)
    ensures FoldL(Anotar, vistos, s) == vistos + s
    decreases |s|
  {
    if s != [] {
      FoldLAnotar(vistos + [s[0]], s[1..]);
      assert vistos + [s[0]] + s[1..] == vistos + s;
    }
  }

  /** Index of the first occurrence of x in s. */
  function FirstIndex<T(==)>(s: seq<T>, x: T): (i: nat)
    requires x in s
    ensures i < |s| && s[i] == x && x !in s[..i]
  {
    if s[0] == x then 0
    else
      assert s == [s[0]] + s[1..];
      var j := FirstIndex(s[1..], x);
      assert s[..j + 1] == [s[0]] + s[1..][..j];
      j + 1
  }

  /** A linked list owning a null-terminated chain of nodes.
      Nodes is the chain in order, Contents the values along it. */
  class ListaSensor<T(==)> {
    var primero: Nodo?<T>
    var elementos: int

    ghost var Contents: seq<T>
    ghost var Nodes: seq<Nodo<T>>
    ghost var Repr: set<object>

    /** The chain from primero visits exactly Nodes, ends in null, holds
        Contents, and elementos counts its nodes. */
    ghost predicate Valid()
      reads this, Repr
      ensures Valid() ==> this in Repr
    {
      && this in Repr
      && (forall i :: 0 <= i < |Nodes| ==> Nodes[i] in Repr)
      && |Nodes| == |Contents| == elementos
      && primero == (if Nodes == [] then null else Nodes[0])
      && (forall i :: 0 <= i < |Nodes| ==> Nodes[i].dato == Contents[i])
      && (forall i {:trigger Nodes[i].siguiente} :: 0 <= i < |Nodes| ==>
            Nodes[i].siguiente == if i + 1 < |Nodes| then Nodes[i + 1] else null)
      && (forall i, j :: 0 <= i < j < |Nodes| ==> Nodes[i] != Nodes[j])
    }

    constructor ()
      ensures Valid() && fresh(Repr)
      ensures Contents == [] && elementos == 0
    {
      primero := null;
      elementos := 0;
      Contents := [];
      Nodes := [];
      Repr := {this};
    }

    /** Copy constructor: a deep copy made of fresh nodes. */
    constructor Copia(origen: ListaSensor<T>)
      requires origen.Valid()
      ensures Valid() && fresh(Repr)
      ensures Contents == origen.Contents
    {
      primero := null;
      elementos := 0;
      Contents := [];
      Nodes := [];
      Repr := {this};
      new;
      DuplicarDesde(origen);
    }

    /** operator=: a no-op on itself, otherwise discard and copy. */
    method Asignar(origen: ListaSensor<T>)
      requires Valid() && origen.Valid()
      requires this == origen || Repr !! origen.Repr
      modifies Repr
      ensures Valid() && fresh(Repr - old(Repr))
      ensures Contents == old(origen.Contents)
      ensures this != origen ==> Repr !! origen.Repr && origen.Contents == old(origen.Contents)
    {
      if this != origen {
        Vaciar();
        DuplicarDesde(origen);
      }
    }

    method InsertarAlFinal(contenido: T)
      requires Valid()
      modifies Repr
      ensures Valid() && fresh(Repr - old(Repr))
      ensures Contents == old(Contents) + [contenido]
      ensures elementos == old(elementos) + 1
    {
      var nuevoElemento := new Nodo(contenido);
      if primero == null {
        primero := nuevoElemento;
      } else {
        var navegador := primero;
        ghost var k := 0;
        while navegador.siguiente != null
          invariant 0 <= k < |Nodes|
          invariant navegador == Nodes[k]
          invariant Valid()
          decreases |Nodes| - k
        {
          navegador := navegador.siguiente;
          k := k + 1;
        }
        navegador.siguiente := nuevoElemento;
      }
      elementos := elementos + 1;
      Nodes := Nodes + [nuevoElemento];
      Contents := Contents + [contenido];
      Repr := Repr + {nuevoElemento};
    }

    /** The first node holding the value, or null when there is none. */
    method Buscar(contenido: T) returns (n: Nodo?<T>)
      requires Valid()
      ensures contenido !in Contents ==> n == null
      ensures contenido in Contents ==> n == Nodes[FirstIndex(Contents, contenido)]
    {
      var navegador := primero;
      ghost var k := 0;
      while navegador != null
        invariant 0 <= k <= |Nodes|
        invariant navegador == if k < |Nodes| then Nodes[k] else null
        invariant contenido !in Contents[..k]
        decreases |Nodes| - k
      {
        if navegador.dato == contenido {
          return navegador;
        }
        assert Contents[..k + 1] == Contents[..k] + [Contents[k]];
        navegador := navegador.siguiente;
        k := k + 1;
      }
      assert Contents[..k] == Contents;
      return null;
    }

    function GetTamanio(): (n: int)
      reads this, Repr
      requires Valid()
      ensures n == |Contents|
    {
      elementos
    }

    function EstaVacia(): (b: bool)
      reads this, Repr
      requires Valid()
      ensures b <==> Contents == []
      ensures b <==> elementos == 0
    {
      primero == null
    }

    function GetCabeza(): (n: Nodo?<T>)
      reads this, Repr
      requires Valid()
      ensures n == null <==> Contents == []
      ensures n != null ==> n.dato == Contents[0]
    {
      primero
    }

    /** iterar: shows every element to the operation, in order; the operation's
        captured state is threaded through as an accumulator. */
    method Iterar<A>(operacion: (A, T) -> A, inicial: A) returns (acumulado: A)
      requires Valid()
      ensures acumulado == FoldL(operacion, inicial, Contents)
    {
      var navegador := primero;
      acumulado := inicial;
      ghost var k := 0;
      while navegador != null
        invariant 0 <= k <= |Nodes|
        invariant navegador == if k < |Nodes| then Nodes[k] else null
        invariant FoldL(operacion, acumulado, Contents[k..]) == FoldL(operacion, inicial, Contents)
        decreases |Nodes| - k
      {
        assert Contents[k..][1..] == Contents[k + 1..];
        acumulado := operacion(acumulado, navegador.dato);
        navegador := navegador.siguiente;
        k := k + 1;
      }
    }

    /** vaciar: unlinks every node (their release is not modelled). */
    method Vaciar()
      requires Valid()
      modifies this
      ensures Valid() && Repr == old(Repr)
      ensures Contents == [] && elementos == 0 && primero == null
    {
      while primero != null
        invariant Valid() && Repr == old(Repr)
        decreases |Nodes|
      {
        primero := primero.siguiente;
        elementos := elementos - 1;
        Nodes := Nodes[1..];
        Contents := Contents[1..];
      }
    }

    /** duplicarDesde: appends a copy of every value of origen, in order. */
    method DuplicarDesde(origen: ListaSensor<T>)
      requires Valid() && origen.Valid()
      requires Repr !! origen.Repr
      modifies Repr
      ensures Valid() && fresh(Repr - old(Repr))
      ensures Repr !! origen.Repr
      ensures Contents == old(Contents) + origen.Contents
    {
      if origen.primero == null {
        return;
      }
      var navegadorOrigen := origen.primero;
      ghost var k := 0;
      while navegadorOrigen != null
        invariant 0 <= k <= |origen.Nodes|
        invariant navegadorOrigen == if k < |origen.Nodes| then origen.Nodes[k] else null
        invariant Valid() && origen.Valid()
        invariant fresh(Repr - old(Repr)) && Repr !! origen.Repr
        invariant Contents == old(Contents) + origen.Contents[..k]
        decreases |origen.Nodes| - k
      {
        assert origen.Contents[..k + 1] == origen.Contents[..k] + [origen.Contents[k]];
        InsertarAlFinal(navegadorOrigen.dato);
        navegadorOrigen := navegadorOrigen.siguiente;
        k := k + 1;
      }
      assert origen.Contents[..k] == origen.Contents;
    }
  }

  /** A deep copy is independent: appending to it leaves the origin as it was. */
  method CopiaIndependiente<T(==)>(origen: ListaSensor<T>, x: T) returns (copia: ListaSensor<T>)
    requires origen.Valid()
    ensures copia.Valid() && origen.Valid()
    ensures copia.Contents == origen.Contents + [x]
    ensures origen.Contents == old(origen.Contents)
  {
    copia := new ListaSensor.Copia(origen);
    copia.InsertarAlFinal(x);
  }
}
