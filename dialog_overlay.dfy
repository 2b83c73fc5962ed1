/** The overlay's click handler (src/components/Dialog/DialogOverlay.tsx):
    it calls `onClick` only for a click on the overlay element itself, never
    for one whose target is a descendant. */
module Overlay {

  /** The number of `onClick` calls one click event causes. */
  function HandleClick(targetIsOverlay: bool, hasOnClick: bool): (calls: nat)
    ensures calls <= 1
    ensures calls == 1 <==> targetIsOverlay && hasOnClick
  {
    if targetIsOverlay && hasOnClick then 1 else 0
  }
}
