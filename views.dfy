/** Identity of the user-interface objects the screen shield works on.
    Views, layers and view controllers are reference objects; only the
    properties the shield reads are carried. Everything the shield changes
    (the parent relations and its own records) lives in
    `Hierarchy.ViewHierarchy`. */
module Views {
  import opened Wrappers

  /** A Core Animation layer; only its identity matters. */
  class Layer {
    constructor () {}
  }

  /** A view: its React Native `nativeID`, its class name and its backing layer. */
  class View {
    const nativeID: Option<string>
    const className: string
    const layer: Layer

    constructor (nativeID: Option<string>, className: string)
      ensures this.nativeID == nativeID && this.className == className
      ensures fresh(layer)
    {
      this.nativeID := nativeID;
      this.className := className;
      layer := new Layer();
    }
  }

  /** A view controller and its root view. */
  class ViewController {
    const view: View

    constructor (view: View)
      ensures this.view == view
    {
      this.view := view;
    }
  }

  /** A read-only snapshot of a view and its subviews, in subview order. */
  datatype ViewNode = ViewNode(view: View, subviews: seq<ViewNode>)
}
