/** Pins of a node (Pin.py): what a fresh pin looks like given its schema
    entry, how the kind selector resolves a dynamic pin, and which literal
    editor is usable in which connection state. */
module Pins {
  import opened Types

  /** The editor a pin's text item creates for an editable schema entry. */
  datatype Widget = LineEditWidget | ComboWidget | PictureWidget

  /** A pin as the engine sees it. `lineEdit` holds the text of the pin's
      line edit and `combo` the entry its kind selector shows, when the pin
      exposes them; `conns` lists the ids of the connections it takes part
      in, and `connected` is the flag the editor maintains beside it. */
  datatype Pin = Pin(kind: Kind, lineEdit: Option<string>, combo: Option<Kind>, connected: bool, conns: seq<nat>)

  /** The widget `NodeText` builds for a schema entry: only editable entries
      get one; the dynamic kind gets the kind selector, images a picture
      label, every other kind a line edit. */
  function TextWidget(spec: PinSpec): Option<Widget>
  {
    if !spec.editable then None
    else if spec.kind == Dynamic then Some(ComboWidget)
    else if spec.kind == Img then Some(PictureWidget)
    else Some(LineEditWidget)
  }

  /** Choosing an entry of the kind selector: the pin takes the kind and
      writes it back into its own schema entry. */
  function SelectKind(p: Pin, spec: PinSpec, k: Kind): (r: (Pin, PinSpec))
    requires p.combo.Some? && k in ComboChoices
    ensures r.0.kind == k && r.1.kind == k
    ensures r.0.combo == Some(k)
    ensures r.1.editable == spec.editable
    ensures r.0.lineEdit == p.lineEdit && r.0.connected == p.connected && r.0.conns == p.conns
  {
    (p.(kind := k, combo := Some(k)), spec.(kind := k))
  }

  /** Choosing the entry already chosen changes nothing. */
  lemma {:induction false} SelectKindIdempotent(p: Pin, spec: PinSpec, k: Kind)
    requires p.combo.Some? && k in ComboChoices
    ensures var once := SelectKind(p, spec, k);
            SelectKind(once.0, once.1, k) == once
  {
  }

  /** A freshly constructed pin together with its (possibly rewritten)
      schema entry. A dynamic editable entry is resolved at once to the
      selector's initial entry. */
  function NewPin(spec: PinSpec): (r: (Pin, PinSpec))
    ensures !r.0.connected && r.0.conns == []
    ensures r.0.lineEdit.Some? <==> spec.editable && spec.kind != Dynamic && spec.kind != Img
    ensures r.0.lineEdit.Some? ==> r.0.lineEdit.value == ""
    ensures r.0.combo.Some? <==> spec.editable && spec.kind == Dynamic
    ensures r.0.combo.Some? ==> r.0.combo.value == Int && r.0.kind == Int
    ensures r.0.lineEdit.None? || r.0.combo.None?
    ensures r.0.kind == r.1.kind && r.1.editable == spec.editable
    ensures r.0.combo.None? ==> r.1 == spec
  {
    var w := TextWidget(spec);
    var bare := Pin(spec.kind, None, None, false, []);
    if spec.kind == Dynamic then
      if w == Some(ComboWidget) then SelectKind(bare.(combo := Some(ComboChoices[0])), spec, ComboChoices[0])
      else (bare, spec)
    else
      (bare.(lineEdit := if w == Some(LineEditWidget) then Some("") else None), spec)
  }

  /** The line edit is visible exactly when the pin is unconnected. */
  predicate LineEditShown(p: Pin)
  {
    p.lineEdit.Some? && !p.connected
  }

  /** The kind selector accepts input exactly when the pin is unconnected. */
  predicate ComboEnabled(p: Pin)
  {
    p.combo.Some? && !p.connected
  }
}
