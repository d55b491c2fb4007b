/**
 * The DispmanX surfaces and the display context, as objects updated in place.
 *
 * A `Surface` owns its array of page `used` flags and its on-screen page; a
 * `Display` holds the display size, the one pending-flip counter shared by
 * all surfaces, the main and the blanking surface, and the completion token
 * of the flip the compositor has accepted (`flight`).  Initialisation,
 * submission (`SurfaceUpdate`, `Update`) and the vsync callback are proved
 * to move the abstract state `Abs()` exactly as the matching step of the
 * PageFlip state machine does, so the invariants proved there hold here.
 * Teardown clears the page flags and is stated on the objects directly.
 */
module Dispmanx {
  import opened Wrappers
  import opened PageFlip
  import opened SurfaceSetup

  const MainSurfaceId: nat := 0
  const BackSurfaceId: nat := 1

  /** The content surface is triple buffered; the blanking surface has one page. */
  const MainSurfacePages: nat := 3
  const BackSurfacePages: nat := 1

  const OpaqueAlpha: int := 255
  const MainLayer: int := 0
  const BackLayer: int := -1

  class Surface {
    const numpages: nat
    /** `pages[i].used` for every page of the pool. */
    const used: array<bool>
    /** `current_page`: the page on screen, if any. */
    var current: Option<nat>
    const geometry: Geometry
    const pitch: int
    const alpha: int
    const layer: int

    ghost predicate Valid()
      reads this
    {
      used.Length == numpages && (current.Some? ==> current.value < numpages)
    }

    ghost function Abs(): SurfaceState
      reads this, used
    {
      SurfaceState(used[..], current)
    }

    /** The page pool as setup initialises it: every flag cleared, nothing on screen. */
    constructor (numpages: nat, geometry: Geometry, pitch: int, alpha: int, layer: int)
      ensures Valid() && fresh(used)
      ensures Abs() == FreshPool(numpages)
      ensures this.numpages == numpages && this.geometry == geometry
      ensures this.pitch == pitch && this.alpha == alpha && this.layer == layer
    {
      this.numpages := numpages;
      this.geometry := geometry;
      this.pitch := pitch;
      this.alpha := alpha;
      this.layer := layer;
      used := new bool[numpages];
      current := None;
      new;
      for i := 0 to numpages
        invariant current == None
        invariant forall j :: 0 <= j < i ==> !used[j]
      {
        used[i] := false;
      }
      assert used[..] == FreshPool(numpages).used;
    }

    /** The scan of the pool: the lowest-index page whose flag is clear, if any. */
    method FindFreePage() returns (r: Option<nat>)
      ensures r == FirstFree(used[..])
    {
      var i := 0;
      while i < used.Length
        invariant 0 <= i <= used.Length
        invariant forall j :: 0 <= j < i ==> used[j]
      {
        if !used[i] {
          return Some(i);
        }
        i := i + 1;
      }
      return None;
    }

    /**
     * Take the lowest free page and mark it used.  The search waits while no
     * page is free; here that wait is the precondition.
     */
    method GetFreePage() returns (p: nat)
      requires Valid() && FirstFree(used[..]).Some?
      modifies used
      ensures p == old(FirstFree(used[..])).value
      ensures used[..] == old(used[..])[p := true]
    {
      var found := FindFreePage();
      p := found.value;
      used[p] := true;
    }

    /** The teardown loop: every page flag cleared. */
    method ReleasePages()
      modifies used
      ensures forall i :: 0 <= i < used.Length ==> !used[i]
    {
      for i := 0 to used.Length
        invariant forall j :: 0 <= j < i ==> !used[j]
      {
        used[i] := false;
      }
    }
  }

  /**
   * Surface setup: the geometry, then a pool of `numpages` free pages.  An
   * unsupported bit depth ends setup before any page exists.
   */
  method SetupSurface(
    srcWidth: Int32, srcHeight: Int32, visiblePitch: Int32, bpp: Int32, alpha: int,
    scaledWidth: Int32, numpages: nat, layer: int,
    dispWidth: DisplayDim, dispHeight: DisplayDim) returns (r: Result<Surface, SetupError>)
    ensures r.Failure? <==> SurfaceGeometry(srcWidth, srcHeight, visiblePitch, bpp, scaledWidth, dispWidth, dispHeight).Failure?
    ensures r.Success? ==>
      var s := r.value;
      && fresh(s) && fresh(s.used) && s.Valid()
      && s.Abs() == FreshPool(numpages)
      && s.geometry == SurfaceGeometry(srcWidth, srcHeight, visiblePitch, bpp, scaledWidth, dispWidth, dispHeight).value
      && s.numpages == numpages && s.pitch == visiblePitch && s.alpha == alpha && s.layer == layer
  {
    var g := SurfaceGeometry(srcWidth, srcHeight, visiblePitch, bpp, scaledWidth, dispWidth, dispHeight);
    match g
    case Failure(e) =>
      r := Failure(e);
    case Success(geometry) =>
      var s := new Surface(numpages, geometry, visiblePitch, alpha, layer);
      r := Success(s);
  }

  /** The completion token: the flipped page, whose back-reference names its surface. */
  datatype Flip = Flip(surface: Surface, page: nat)

  class Display {
    const width: DisplayDim
    const height: DisplayDim
    /** `pageflip_pending`, shared by every surface. */
    var pending: Uint32
    /** The flip the compositor has accepted and not yet called back for. */
    var flight: Option<Flip>
    var mainSurface: Surface?
    var backSurface: Surface?
    ghost var Repr: set<object>

    /** The object structure: two distinct live surfaces of three and one pages. */
    ghost predicate Shape()
      reads this, Repr
    {
      && this in Repr
      && mainSurface != null && backSurface != null
      && mainSurface in Repr && backSurface in Repr
      && mainSurface.used in Repr && backSurface.used in Repr
      && mainSurface != backSurface && mainSurface.used != backSurface.used
      && mainSurface.Valid() && backSurface.Valid()
      && mainSurface.numpages == MainSurfacePages && backSurface.numpages == BackSurfacePages
      && (flight.Some? ==> flight.value.surface == mainSurface || flight.value.surface == backSurface)
    }

    ghost function SurfaceIndex(s: Surface): nat
      reads this
    {
      if s == mainSurface then MainSurfaceId else BackSurfaceId
    }

    ghost function Abs(): State
      reads this, Repr
      requires Shape()
    {
      State(
        [mainSurface.Abs(), backSurface.Abs()],
        pending,
        match flight
        case None => None
        case Some(f) => Some(Flight(SurfaceIndex(f.surface), f.page)))
    }

    ghost predicate Valid()
      reads this, Repr
    {
      Shape() && Inv(Abs())
    }

    /**
     * Display initialisation: the main surface (16 bpp, three pages), then
     * the blanking surface (a 2x2 16-bit image, one page, below the main
     * layer) whose one frame is submitted at once.  `mainScaledWidth` and
     * `backScaledWidth` are the destination widths the floating-point
     * aspect computation yields.
     */
    constructor Init(width: DisplayDim, height: DisplayDim,
                     srcWidth: Int32, srcHeight: Int32, visiblePitch: Int32,
                     mainScaledWidth: Int32, backScaledWidth: Int32)
      ensures Valid() && fresh(Repr)
      ensures this.width == width && this.height == height
      ensures mainSurface.geometry == SurfaceGeometry(srcWidth, srcHeight, visiblePitch, 16, mainScaledWidth, width, height).value
      ensures backSurface.geometry == SurfaceGeometry(2, 2, 4, 16, backScaledWidth, width, height).value
      ensures Abs() == Submit(Initial([MainSurfacePages, BackSurfacePages]), BackSurfaceId)
      ensures pending == 1 && flight == Some(Flip(backSurface, 0))
    {
      this.width := width;
      this.height := height;
      pending := 0;
      flight := None;
      var m := SetupSurface(srcWidth, srcHeight, visiblePitch, 16, OpaqueAlpha, mainScaledWidth,
                            MainSurfacePages, MainLayer, width, height);
      var b := SetupSurface(2, 2, 4, 16, OpaqueAlpha, backScaledWidth,
                            BackSurfacePages, BackLayer, width, height);
      mainSurface := m.value;
      backSurface := b.value;
      Repr := {this, m.value, m.value.used, b.value, b.value.used};
      new;
      ghost var start := Initial([MainSurfacePages, BackSurfacePages]);
      assert Abs() == start;
      InitialInv([MainSurfacePages, BackSurfacePages]);
      assert backSurface.used[..] == [false];
      SurfaceUpdate(backSurface);
    }

    /**
     * Submit a frame on a surface: wait for no pending flip, take the lowest
     * free page, flip to it, and count one pending flip.  Both waits are
     * preconditions.
     */
    method SurfaceUpdate(s: Surface)
      requires Valid()
      requires s == mainSurface || s == backSurface
      requires pending == 0
      requires FirstFree(s.used[..]).Some?
      modifies this, s.used
      ensures Valid() && Repr == old(Repr)
      ensures mainSurface == old(mainSurface) && backSurface == old(backSurface)
      ensures Abs() == Submit(old(Abs()), old(SurfaceIndex(s)))
      ensures flight == Some(Flip(s, old(FirstFree(s.used[..])).value))
    {
      ghost var before := Abs();
      ghost var id := SurfaceIndex(s);
      assert before.surfaces[id] == s.Abs();
      var p := s.GetFreePage();
      // the pixels are written into page p and the element is re-pointed at it
      flight := Some(Flip(s, p));
      pending := Inc32(pending);
      assert Abs() == Submit(before, id);
      SubmitStep(before, id);
    }

    /** `dispmanx_update`: submit a frame on the main surface. */
    method Update()
      requires Valid() && pending == 0
      modifies this, mainSurface.used
      ensures Valid() && Repr == old(Repr)
      ensures mainSurface == old(mainSurface) && backSurface == old(backSurface)
      ensures CanSubmit(old(Abs()), MainSurfaceId) && Abs() == Submit(old(Abs()), MainSurfaceId)
    {
      FreePageWhenIdle(Abs(), MainSurfaceId);
      SurfaceUpdate(mainSurface);
    }

    /**
     * The vsync callback for the flip in flight: free the page that was on
     * screen, make the flipped page current, and drop the pending count.
     */
    method VsyncCallback()
      requires Valid() && flight.Some?
      modifies this, mainSurface, mainSurface.used, backSurface, backSurface.used
      ensures Valid() && Repr == old(Repr)
      ensures mainSurface == old(mainSurface) && backSurface == old(backSurface)
      ensures Abs() == Complete(old(Abs()))
      ensures old(flight).value.surface.current == Some(old(flight).value.page)
    {
      ghost var before := Abs();
      CompleteStep(before);
      var page := flight.value.page;
      var s := flight.value.surface;
      assert before.surfaces[SurfaceIndex(s)] == s.Abs();
      if s.current.Some? {
        s.used[s.current.value] := false;
      }
      s.current := Some(page);
      pending := Dec32(pending);
      flight := None;
      assert Abs() == Complete(before);
    }

    /**
     * Surface teardown: it waits until no flip is pending (the precondition
     * here), then clears every page flag.
     */
    method SurfaceFree(s: Surface)
      requires pending == 0
      modifies s.used
      ensures forall i :: 0 <= i < s.used.Length ==> !s.used[i]
    {
      s.ReleasePages();
    }

    /** `dispmanx_videoquit`: free the main surface, then the blanking surface. */
    method Quit()
      requires Valid() && pending == 0
      modifies this, mainSurface.used, backSurface.used
      ensures mainSurface == null && backSurface == null
      ensures pending == old(pending) && flight == old(flight)
      ensures forall i :: 0 <= i < old(mainSurface).used.Length ==> !old(mainSurface).used[i]
      ensures forall i :: 0 <= i < old(backSurface).used.Length ==> !old(backSurface).used[i]
    {
      var m := mainSurface;
      var b := backSurface;
      SurfaceFree(m);
      mainSurface := null;
      SurfaceFree(b);
      backSurface := null;
    }
  }
}
