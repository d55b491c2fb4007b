# Triple buffering on the Raspberry Pi DispmanX compositor — a Dafny model

This project models the page rotation of a small DispmanX presentation layer.
The layer hands rendered frames to the VideoCore compositor. Each surface owns a fixed pool of
pages, and each page has a `used` flag. Each surface also has one page on screen (`current_page`).
One counter, `pageflip_pending`, is shared by every surface, because the compositor accepts only
one outstanding flip.

A frame submission (`dispmanx_surface_update`) has three steps:
- It waits until no flip is pending.
- It takes the lowest-index free page and marks it used.
- It submits the flip and increments the counter.

The vsync callback (`dispmanx_vsync_callback`) also has three steps:
- It frees the page that was on screen.
- It makes the flipped page current.
- It decrements the counter.

The project also models two smaller pieces:
- the integer part of surface setup: pixel format, page-pool initialisation and rectangle arithmetic;
- the demo program's frame loop.

Files:
- `wrappers.dfy`: `Option` and `Result`.
- `page_flip.dfy` (module `PageFlip`): the rotation as a state machine over values. It has
  two events, submission and completion, and proves the invariants that hold under any order of events.
- `surface_setup.dfy` (module `SurfaceSetup`): the pixel-format switch, the visible width (C's
  truncating division), the clamped and centred destination rectangle, and the 16.16 source rectangle.
- `dispmanx.dfy` (module `Dispmanx`): the `Surface` and `Display` objects. Their methods update
  fields and arrays in place. `Init`, `SurfaceUpdate`, `Update` and `VsyncCallback` are proved to
  move the abstract state `Abs()` exactly as the matching `PageFlip` step does. The teardown methods
  `SurfaceFree` and `Quit` are specified on the objects directly: every page flag is cleared.
- `demo.dfy` (module `Demo`): `clear_screen` and the bar-drawing loop of `main`.

The compositor's blocking waits become preconditions:
- the pending-flip wait of a submission;
- the free-page wait inside the page search;
- the pending-flip wait of surface teardown.

The completion callback is one atomic event. The flip the compositor holds is recorded as the
state's `flight`, which is the completion token the callback receives.

Properties the model proves about the code:
- Under any order of submissions and completions:
  - the pending counter stays 0 or 1;
  - the used pages of each surface are exactly its on-screen page and its in-flight page;
  - a submission never writes the page recorded as `current_page`.
- On the three-page main surface, the page search never waits once no flip is pending.
- The one-page blanking surface is submitted once. After that frame completes, its only page is on
  screen and stays `used`, so a second submission on it would wait forever (`OnePageSurfaceStuck`).
- A submission always waits for the previous flip to complete first. For that reason, only pages 0
  and 1 of the main surface are ever handed out. The third page is allocated but never used
  (`ThirdPageNeverUsed`). The rotation is double buffering in practice.
- Teardown waits only for the pending counter. A bit depth other than 8, 16 or 32 makes setup
  return silently before any page is allocated. The model reports that case as
  `Failure(UnsupportedBpp(bpp))`.

## Model

| member | source | states |
|---|---|---|
| PageFlip.FirstFree | raspberrypi.c:83-89 | the result is the lowest index whose `used` flag is clear, and it is None exactly when every page is used |
| PageFlip.Initial | raspberrypi.c:181-186 | right after setup, each surface has its own number of pages, none of them used, and no flip is pending |
| PageFlip.FreshPool | raspberrypi.c:181-186 | a freshly set-up pool has `numpages` pages, none of them used, and no current page |
| PageFlip.InitialInv | raspberrypi.c:181-186 | right after setup, with no flip pending, the rotation invariant holds |
| PageFlip.Submit | raspberrypi.c:225-255 | a submission keeps every surface and pool size, takes a page of the submitting surface that was free and marks it used, records a flip in flight on that surface, keeps its current page, and leaves every other surface unchanged (the pending count and the invariant are in `SubmitStep`) |
| PageFlip.Complete | raspberrypi.c:108-137 | the callback keeps every surface and pool size, makes the flipped page current, frees the page that was on screen before, clears the flip in flight and leaves every other surface unchanged (the pending count and the invariant are in `CompleteStep`) |
| PageFlip.Step | raspberrypi.c:108-137 | an event happens exactly when it is enabled (no pending flip and a free page for a submission; a flip in flight for a callback), keeps every pool size, and afterwards a flip is in flight exactly when the event was a submission (the invariant is in `StepPreservesInv`) |
| PageFlip.Run | raspberrypi.c:225-255 | a sequence of events keeps every surface and pool size, and the empty sequence changes nothing (the invariant is in `RunPreservesInv`) |
| PageFlip.SubmitStep | raspberrypi.c:225-255 | a submission (when no flip is pending and a page is free) takes a page that was free and is not the on-screen page, reserves exactly that page, leaves exactly one flip pending, keeps the current page, changes no other surface and preserves the invariant |
| PageFlip.CompleteStep | raspberrypi.c:108-137 | the callback frees the previous on-screen page, makes the flipped page current and keeps it used, takes the pending count from 1 to 0, changes no other surface and preserves the invariant |
| PageFlip.StepPreservesInv | raspberrypi.c:108-137 | any enabled event (submission or callback) preserves the invariant, the number of surfaces and the number of pages of each |
| PageFlip.RunPreservesInv | raspberrypi.c:225-255 | every sequence of submissions and completions, in any order, preserves the invariant, the number of surfaces and the number of pages of each |
| PageFlip.AnyRunFromSetup | raspberrypi.c:229-254 | from setup on, under any order of events, pending is 0 or 1, each surface keeps the number of pages it was set up with, and each surface's used pages are exactly its on-screen page plus its in-flight page |
| PageFlip.IdleSubmissionNeverWaits | raspberrypi.c:258-260 | from setup on, on a surface set up with at least two pages (the main surface), a submission made while no flip is pending never waits for a free page |
| PageFlip.IdleLeavesFirstTwoNotBothUsed | raspberrypi.c:116-127 | with no flip pending, page 0 and page 1 of a surface are not both used |
| PageFlip.FreePageWhenIdle | raspberrypi.c:316-324 | on a surface of at least two pages (the three-page main surface), a free page exists whenever no flip is pending, so the submission can proceed |
| PageFlip.OnePageSurfaceStuck | raspberrypi.c:262-272 | once the only page of a one-page surface is on screen, no sequence of events changes that surface, and a further submission on it is never enabled |
| PageFlip.SubmitPicksFirstTwo | raspberrypi.c:229-238 | the page a submission takes is always page 0 or page 1 |
| PageFlip.OnlyTwoPagesRotate | raspberrypi.c:80-89 | if no page past the second is used, no sequence of events ever uses one |
| PageFlip.ThirdPageNeverUsed | raspberrypi.c:322 | from setup on, page 2 of any surface (the third page of the main surface) is never used |
| SurfaceSetup.PixelFormatOf | raspberrypi.c:165-177 | bpp 8, 16 and 32 are the only supported depths, and each selects the format whose bit depth it is |
| SurfaceSetup.PixelFormatRoundTrip | raspberrypi.c:165-177 | each pixel format is selected by its own bit depth |
| SurfaceSetup.VisibleWidth | raspberrypi.c:190 | the visible width is the number of whole pixels in the visible pitch, with C's truncation toward zero for negative pitches |
| SurfaceSetup.DestinationRect | raspberrypi.c:192-205 | the destination lies inside the display and spans its full height with y = 0; it is centred (right margin equals left margin or exceeds it by one); a width within the display is kept; a width above it, or a negative one (unsigned comparison), becomes the display width |
| SurfaceSetup.SurfaceGeometry | raspberrypi.c:164-207 | setup fails exactly for an unsupported bpp; on success the format matches bpp, the bitmap rect is (0, 0, w, h), the source rect is that rect in 16.16 fixed point, the visible width is the pitch's whole pixels (`VisibleWidth`), and the destination is the clamped, centred rectangle of `DestinationRect`, inside the display at full height |
| SurfaceSetup.SixteenBitPitchGivesSourceWidth | main.c:25-28 | with 16 bpp and a visible pitch of twice the source width, the visible width equals the source width |
| Dispmanx.Surface.constructor | raspberrypi.c:179-186 | allocates `numpages` page flags, clears every one of them and has no current page |
| Dispmanx.Surface.FindFreePage | raspberrypi.c:83-89 | the scan returns the lowest free page, or None when every page is used |
| Dispmanx.Surface.GetFreePage | raspberrypi.c:76-106 | returns the lowest free page and sets its flag, with no other flag changed |
| Dispmanx.Surface.ReleasePages | raspberrypi.c:344-348 | clears every page flag of the surface |
| Dispmanx.SetupSurface | raspberrypi.c:139-186 | fails exactly when the geometry fails (unsupported bpp) and then allocates nothing; otherwise returns a fresh surface with the computed geometry and a pool of `numpages` free pages |
| Dispmanx.Display.Init | raspberrypi.c:274-327 | sets up the 3-page main surface at 16 bpp and the 1-page blanking surface, then submits the blanking frame: one flip is pending, on page 0 of the blanking surface, and the invariant holds |
| Dispmanx.Display.SurfaceUpdate | raspberrypi.c:225-255 | the object state moves exactly as the PageFlip submission does, and the flip in flight is the page taken |
| Dispmanx.Display.Update | raspberrypi.c:258-260 | a main-surface submission needs only "no flip pending": a free page then always exists |
| Dispmanx.Display.VsyncCallback | raspberrypi.c:108-137 | the object state moves exactly as the PageFlip completion does: the flipped page becomes current |
| Dispmanx.Display.SurfaceFree | raspberrypi.c:329-348 | called only with no flip pending; afterwards every page flag of the surface is clear |
| Dispmanx.Display.Quit | raspberrypi.c:360-364 | frees the main and then the blanking surface: both pools are cleared, both surface pointers are null, and the pending count and the flip in flight are unchanged |
| Demo.ClearScreen | main.c:11-17 | every pixel below `width * height` is 0, and nothing at or beyond it is written |
| Demo.BarFrameUnique | main.c:35-42 | the row-and-column description of a bar frame fixes every pixel of the buffer |
| Demo.BarDemo | main.c:27-46 | exactly 2 * (384 - 50) frames are handed over; in frame n, every row holds the bar colour 0x0FF0 in columns j..j+49, where j = n mod 334, and 0 elsewhere; every write stays inside the buffer |

## Left out

- Threads, mutexes and condition variables are not modelled. Each wait is a precondition, and the
  callback is one atomic event. Lost or spurious wake-ups are outside the model. One example is the
  single `if` around the pending wait, which a spurious wake-up would pass.
- The VideoCore calls (resource create, write and delete, element add, change and remove, update
  start and submit, display open and close, display size, host init and deinit) are foreign
  hardware calls. The display size is a parameter of `Display.Init`. The flip submission is recorded
  as `flight`.
- The destination width is computed in floating point (display height times aspect ratio, where
  the aspect comes from the source size or the display size). It enters as the integer parameters
  `scaledWidth`, `mainScaledWidth` and `backScaledWidth`.
- `dispmanx_init`'s `src_bpp` parameter is ignored by the code, because the main surface is always
  set up at 16 bpp. The model therefore has no such parameter.
- The `calloc`/`free` memory management is not modelled. Neither is the "free the main surface if
  not null" branch of init, which never runs because the pointer was just set to null.
- On an unsupported bpp, the code still leaves a surface behind whose page count, pitch and alpha
  are set but whose page array is null and whose pixel format is unset. The model returns `Failure`
  instead, so that leftover is not represented.
- Setup adds each surface's element bound to the buffer of page 0 (raspberrypi.c:216-222) without
  recording it as `current_page`. The model's on-screen page is `current_page` only. So on a fresh
  surface the first submission takes page 0 and writes into the buffer the element is showing; the
  model's "never writes the on-screen page" holds for `current_page` and does not cover that first
  write.
- The unused fields `frame_count`, `fb_fd`, `fb_addr`, `screensize` and `screen_bck` are left out.
- The header `raspberrypi.h` declares only prototypes. One of them, `dispmanx_main_surface_update`,
  is never defined.
- Pixel data written into the compositor's buffers is not modelled, apart from the demo's own buffer.
- Demo.BarDemo: the frames are returned as snapshots, not submitted to a `Display`. The interplay of
  the demo with the rotation is covered by the `PageFlip` lemmas for any order of events.
- SurfaceSetup.SurfaceGeometry: `src_width << 16` is modelled as multiplication by 65536. The
  model does not capture C's undefined behaviour when a source dimension is negative or at least 2^15.
- Dispmanx.Display.Quit: does not model releasing the compositor buffers and elements, or destroying
  the locks and the display connection.
