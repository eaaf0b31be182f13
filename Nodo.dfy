/** The element of a singly-linked chain (Nodo.h). */
module LinkedNode {

  /** One link: the stored value and the next node, or null at the tail. */
  class Nodo<T> {
    var dato: T
    var siguiente: Nodo?<T>

    /** A fresh node holds exactly the given value and is a valid chain tail. */
    constructor (contenido: T)
      ensures dato == contenido
      ensures siguiente == null
    {
      dato := contenido;
      siguiente := null;
    }
  }
}
