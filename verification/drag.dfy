/** `WindowDragManager`: which toolbar clicks may drag the editor window, and
    the one-time installation of the drag handler on the toolbar root. */
module Drag {
  import opened Text

  /** The name of the invisible marker that records the handler's presence. */
  const DragAreaName: string := "DragArea"

  /** The control types the classifier tests with `is`. */
  datatype ElementKind = ButtonElement | TextFieldElement | ToggleElement | OtherElement

  /** A UI Toolkit element: its type, name, style classes, children and the
      number of mouse-down callbacks registered on it. */
  class VisualElement {
    const kind: ElementKind
    var name: Option<string>
    var classList: seq<string>
    var children: seq<VisualElement>
    var mouseDownHandlers: nat
    ghost var Repr: set<object>

    /** The element owns its subtree, and no element is its own descendant. */
    ghost predicate Valid()
      reads this, Repr
      decreases Repr
    {
      this in Repr &&
      forall c :: c in children ==>
        c in Repr && c.Repr <= Repr && this !in c.Repr && c.Valid()
    }

    /** A childless element without classes or callbacks. */
    constructor (kind: ElementKind, name: Option<string>)
      ensures this.kind == kind && this.name == name
      ensures classList == [] && children == [] && mouseDownHandlers == 0
      ensures Valid() && fresh(Repr)
    {
      this.kind := kind;
      this.name := name;
      classList := [];
      children := [];
      mouseDownHandlers := 0;
      Repr := {this};
    }

    /** `Q(n) != null`: this element or one of its descendants is named `n`. */
    predicate HasNamed(n: string)
      reads this, Repr
      requires Valid()
      decreases Repr
    {
      name == Some(n) || exists c :: c in children && c.HasNamed(n)
    }
  }

  /** The checks that mark an element as interactive: a button, text field
      or toggle, a button style class, or a name containing "Button" or
      "Field". */
  predicate IsInteractive(target: VisualElement)
    reads target
  {
    target.kind == ButtonElement || target.kind == TextFieldElement || target.kind == ToggleElement ||
    "unity-button" in target.classList ||
    "unity-toolbar-button" in target.classList ||
    (!IsNullOrEmpty(target.name) && Contains(target.name.value, "Button")) ||
    (!IsNullOrEmpty(target.name) && Contains(target.name.value, "Field"))
  }

  /** `IsEmptyToolbarArea`: a click on `target` may drag the window. The
      interactive checks come first, so they reject even the root. */
  function IsEmptyToolbarArea(target: VisualElement?, root: VisualElement?): (r: bool)
    reads target
    ensures target == null || root == null ==> !r
    ensures target != null && IsInteractive(target) ==> !r
    ensures target != null && root != null && !IsInteractive(target) ==>
      (r <==> target == root || IsNullOrEmpty(target.name) ||
              (exists i :: OccursAt(target.name.value, "Zone", i)) ||
              (exists i :: OccursAt(target.name.value, "Toolbar", i)))
  {
    if target == null || root == null then false
    else if IsInteractive(target) then false
    else
      target == root ||
      (!IsNullOrEmpty(target.name) && Contains(target.name.value, "Zone")) ||
      (!IsNullOrEmpty(target.name) && Contains(target.name.value, "Toolbar")) ||
      IsNullOrEmpty(target.name)
  }

  /** An element whose name mentions "Button" is never a drag area, even when
      its name also mentions "Toolbar" or "Zone", and even when it is the
      root. */
  lemma ButtonNameRejected(target: VisualElement, root: VisualElement?, i: int)
    requires target.name.Some? && OccursAt(target.name.value, "Button", i)
    ensures !IsEmptyToolbarArea(target, root)
  {
  }

  /** An element with no name that is not interactive is a drag area. */
  lemma UnnamedPlainElementAccepted(target: VisualElement, root: VisualElement)
    requires IsNullOrEmpty(target.name)
    requires target.kind == OtherElement
    requires "unity-button" !in target.classList && "unity-toolbar-button" !in target.classList
    ensures IsEmptyToolbarArea(target, root)
  {
  }

  /** The body of the registered mouse-down callback: whether it starts a
      window drag (and stops the event) for a click with `button` on
      `target`. Only the left button (0) on an accepted target does. */
  function StartsDrag(target: VisualElement?, root: VisualElement, button: int): (r: bool)
    reads target
    ensures r ==> button == 0 && target != null && !IsInteractive(target)
    ensures r <==> button == 0 && IsEmptyToolbarArea(target, root)
  {
    if target != null && IsEmptyToolbarArea(target, root) then button == 0 else false
  }

  /** `CreateDragArea`: unless the root already holds an element named
      `DragArea`, appends such a marker to the root and registers the drag
      callback on it; otherwise leaves the root as it is. */
  method CreateDragArea(root: VisualElement?)
    requires root != null ==> root.Valid()
    modifies root
    ensures root != null ==> root.Valid() && root.HasNamed(DragAreaName)
    ensures root != null && old(root.HasNamed(DragAreaName)) ==> unchanged(root)
    ensures root != null && !old(root.HasNamed(DragAreaName)) ==>
      |root.children| == |old(root.children)| + 1 &&
      root.children[..|old(root.children)|] == old(root.children) &&
      fresh(root.children[|old(root.children)|]) &&
      root.children[|old(root.children)|].name == Some(DragAreaName) &&
      root.children[|old(root.children)|].children == [] &&
      root.mouseDownHandlers == old(root.mouseDownHandlers) + 1 &&
      root.name == old(root.name) && root.classList == old(root.classList)
  {
    if root == null || root.HasNamed(DragAreaName) {
      return;
    }
    var marker := new VisualElement(OtherElement, Some(DragAreaName));
    ghost var oldChildren := root.children;
    root.children := root.children + [marker];
    root.Repr := root.Repr + marker.Repr;
    root.mouseDownHandlers := root.mouseDownHandlers + 1;
    assert forall c :: c in oldChildren ==> c.Valid() && c.Repr <= root.Repr;
    assert marker in root.children && marker.HasNamed(DragAreaName);
  }
}
