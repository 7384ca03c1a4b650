# JVTK render bridge, fullscreen switching and OS utilities in Dafny

This project models the sequential logic of JVTK, a Swing integration layer
that shows the content of a native VTK render window inside a lightweight
Swing panel. Three pieces are modelled.

- **VTKJPanel.** This is the render bridge. The panel caches an offscreen
  image between paints. `getImage` re-renders only when the image is missing,
  the render window's size no longer matches the image's size minus one, or
  the `contentChanged` dirty flag is set. Input events, `setBounds` outside
  fullscreen and `setContentAlpha` set the flag, and `render` clears it.
  `updateImage` does nothing when no actor is visible. Otherwise it rebuilds
  the pixel-interleaved sample model when needed: four byte bands at offsets
  0..3, pixel stride 4, row stride `4*(w+1)`, over `(w+1) x (h+1)` samples.
  It also rebuilds the mirror transform `y -> (h+1) - y`, and the new image
  is the pixel buffer mirrored vertically.
- **GraphicsUtil.** `getScreenId` is a first-match search over the screen
  devices. `getGraphicsDevice` indexes the device array directly.
  `enterFullscreenMode` takes the native branch only when the device supports
  full-screen mode, native mode is requested and the OS is Mac OS X.
  Otherwise it falls back to stretching the frame to the screen's bounds.
  `leaveFullscreenMode` releases the device's full-screen window.
- **SysUtil.** `getOS` returns the first of "Linux", "Mac OS X", "Windows"
  that occurs in the `os.name` property, or "Other". `addNativeLibraryPath`
  appends a directory to the class loader's library paths and to
  `java.library.path`, unless the directory is already there.

Files:

- `search.dfy`: first-match search (module `Search`).
- `sys_util.dfy`: module `SysUtil`.
- `graphics_util.dfy`: module `GraphicsUtil`, with windows and screen devices as classes.
- `raster.dfy`: module `Raster`, the sample-model layout, the mirror transform and the flip of the byte buffer.
- `vtk_jpanel.dfy`: module `Panel`, with the class `VTKJPanel` and the render window it reads.

The native VTK calls are replaced by the fields of a `RenderWindow` object
that hold what they report: `GetSize`, `VisibleActorCount` and
`GetRGBACharPixelData`. The panel never writes those fields. A ghost counter
`renders` counts native render calls, so "renders exactly when" can be
stated. The class invariant `VTKJPanel.Valid` says that the image, the
sample model and the transform are either all present or all absent. When
present, the model and the transform are the ones built for the image's
size.

The JDK's `GraphicsDevice.setFullScreenWindow` is modelled, as the JDK
implements it, by `GraphicsDevice.SetFullScreenWindow`. Setting the window
that already holds full-screen mode changes nothing. Otherwise:
- the new full-screen window's bounds are saved, and it is given the
  screen's bounds and made visible;
- the window that leaves full-screen mode gets the saved bounds back, with a
  zero width or height replaced by 1 (`RestoredBounds`).

Two consequences of the code are worth stating:
- Bounds are restored only on the native branch. After a fallback enter,
  leaving keeps the screen's bounds (`EnterThenLeave`). After a native enter,
  leaving gives the frame its earlier bounds back, a zero width or height
  coming back as 1 (`EnterThenLeaveNative`).
- A screen index is used to index the device array directly and is never
  turned into an error value, so the model states the valid range as a
  precondition.

## Model

| member | source | states |
|---|---|---|
| Search.IndexOf | JVTK/src/eu/mihosoft/vtk/GraphicsUtil.java:88-95 | the result is -1 exactly when the element is absent; otherwise it is an index holding the element, and no earlier index holds it |
| SysUtil.FirstContained | JVTK/src/eu/mihosoft/vtk/SysUtil.java:122-127 | the index of the first candidate contained in the OS name, with no earlier candidate contained; -1 exactly when none is contained |
| SysUtil.OsName | JVTK/src/eu/mihosoft/vtk/SysUtil.java:117-130 | the result is one of "Linux", "Mac OS X", "Windows", "Other"; it is "Other" exactly when no supported name is a substring of the OS name; any other result is a substring of the OS name |
| SysUtil.GetOS | JVTK/src/eu/mihosoft/vtk/SysUtil.java:117-130 | the loop with its early break returns the first-match classification OsName |
| SysUtil.ExclusiveOs | JVTK/src/eu/mihosoft/vtk/SysUtil.java:132-142 | at most one of isWindows, isMacOSX, isLinux holds, and none holds exactly when getOS is "Other" |
| SysUtil.FirstMatchWins | JVTK/src/eu/mihosoft/vtk/SysUtil.java:43-47 | the list order decides: Linux if contained, else Mac OS X if contained, else Windows if contained; later matches are ignored |
| SysUtil.IsWindows | JVTK/src/eu/mihosoft/vtk/SysUtil.java:132-134 | holds exactly when the OS name mentions Windows and mentions neither Linux nor Mac OS X |
| SysUtil.IsMacOSX | JVTK/src/eu/mihosoft/vtk/SysUtil.java:136-138 | holds exactly when the OS name mentions Mac OS X and does not mention Linux |
| SysUtil.IsLinux | JVTK/src/eu/mihosoft/vtk/SysUtil.java:140-142 | holds exactly when the OS name mentions Linux |
| SysUtil.LinuxBeforeWindows | JVTK/src/eu/mihosoft/vtk/SysUtil.java:122-127 | every OS name mentioning both Linux and Windows is classified as Linux and not as Windows |
| SysUtil.AddPath | JVTK/src/eu/mihosoft/vtk/SysUtil.java:90-101 | afterwards the path is present and the old paths are a prefix; a present path changes neither the paths nor the property; a new path makes n+1 entries with the path last and appends separator+path to the property |
| SysUtil.AddPathIdempotent | JVTK/src/eu/mihosoft/vtk/SysUtil.java:90-101 | adding the same path twice gives the state of adding it once |
| SysUtil.LibraryPaths.AddNativeLibraryPath | JVTK/src/eu/mihosoft/vtk/SysUtil.java:81-101 | the scan, the copy into a one-longer array and the property update produce the state AddPath describes; a present path keeps the same array and a new path installs a fresh one |
| GraphicsUtil.GetGraphicsDevice | JVTK/src/eu/mihosoft/vtk/GraphicsUtil.java:60-68 | defined only for an id within the device array; the result is one of the devices |
| GraphicsUtil.GetScreenId | JVTK/src/eu/mihosoft/vtk/GraphicsUtil.java:77-96 | the result is -1 exactly when the window's device is not among the devices; otherwise that index holds the device and no smaller index does |
| GraphicsUtil.ScreenIdRoundTrip | JVTK/src/eu/mihosoft/vtk/GraphicsUtil.java:60-96 | looking up the device at the index the screen lookup finds gives back the window's own device |
| GraphicsUtil.UsesNativeFullscreen | JVTK/src/eu/mihosoft/vtk/GraphicsUtil.java:110 | the native branch is taken exactly when the device supports full-screen mode, native support is requested, and the OS name mentions Mac OS X but not Linux |
| GraphicsUtil.GraphicsDevice.SetFullScreenWindow | JVTK/src/eu/mihosoft/vtk/GraphicsUtil.java:117 | the window given becomes the full-screen window. Setting the current one changes nothing. Otherwise the new window is visible with the screen's bounds and its earlier bounds are saved, and the window that held full-screen mode gets the restored bounds with its visibility and resizability unchanged |
| GraphicsUtil.RestoredBounds | JVTK/src/eu/mihosoft/vtk/GraphicsUtil.java:163 | the bounds given back on leaving keep the saved position, are never zero-sized, and equal the saved bounds whenever those are not zero-sized |
| GraphicsUtil.EnterFullscreenMode | JVTK/src/eu/mihosoft/vtk/GraphicsUtil.java:106-131 | the frame ends visible with the screen's bounds, except when it already was the device's full-screen window and the native branch leaves it as it is. The native branch is taken iff supported, native requested and Mac OS X: a JFrame becomes non-resizable, the frame becomes the device's full-screen window and its earlier bounds are saved, and a window it displaces gets the restored bounds with its visibility and resizability unchanged. The fallback branch leaves the device and any other full-screen window alone. The diagnostic is written only on the fallback branch, and exactly when native mode was requested |
| GraphicsUtil.EnterFullscreenModeDefault | JVTK/src/eu/mihosoft/vtk/GraphicsUtil.java:138-140 | behaves as the three-argument form with screen 0 and native support requested |
| GraphicsUtil.LeaveFullscreenMode | JVTK/src/eu/mihosoft/vtk/GraphicsUtil.java:148-169 | needs the frame's screen to be found. When supported it releases the device's full-screen window, which gets the restored bounds, and makes a JFrame resizable. A released window other than the frame keeps its visibility and resizability, and a frame that was not the full-screen window keeps its bounds. Otherwise it only writes a diagnostic and changes nothing. The frame's visibility is never changed |
| GraphicsUtil.EnterThenLeave | JVTK/src/eu/mihosoft/vtk/GraphicsUtil.java:106-169 | after a fallback enter and a leave, the frame keeps the screen's bounds: no earlier bounds are restored |
| GraphicsUtil.EnterThenLeaveNative | JVTK/src/eu/mihosoft/vtk/GraphicsUtil.java:106-169 | after a native enter and a leave, the frame has its earlier bounds back, with a zero width or height as 1. It is visible, and the screen has no full-screen window |
| Raster.LayoutFor | JVTK/src/eu/mihosoft/vtk/VTKJPanel.java:348-352 | the sample model for w x h covers (w+1) x (h+1) samples with four packed bands per pixel and packed rows, and fills the 4*(w+1)*(h+1)-byte buffer exactly |
| Raster.LayoutOffset | JVTK/src/eu/mihosoft/vtk/VTKJPanel.java:345-352 | in the sample model built for w x h, band b of sample (x, y) is at byte 4*(w+1)*y + 4*x + b, inside the 4*(w+1)*(h+1)-byte buffer |
| Raster.SampleOffsetRoundTrip | JVTK/src/eu/mihosoft/vtk/VTKJPanel.java:348-352 | decoding the byte position of a sample gives back the sample and band |
| Raster.OffsetSampleRoundTrip | JVTK/src/eu/mihosoft/vtk/VTKJPanel.java:348-352 | every byte of the buffer decodes to a sample of the grid whose position is that byte, so the layout is a bijection |
| Raster.MirrorTransform | JVTK/src/eu/mihosoft/vtk/VTKJPanel.java:356 | for every point, the transform keeps x and sends y to (h+1) - y |
| Raster.MirrorTransformRows | JVTK/src/eu/mihosoft/vtk/VTKJPanel.java:356 | the transform keeps x and maps y to (h+1) - y, carrying the band of raster row r onto row h - r |
| Raster.MirrorRowInvolution | JVTK/src/eu/mihosoft/vtk/VTKJPanel.java:356 | the row map sends rows 0..h onto rows 0..h, and applying it twice is the identity |
| Raster.FlipRow | JVTK/src/eu/mihosoft/vtk/VTKJPanel.java:377-379 | the mirrored position of any byte of the buffer lies inside the buffer |
| Raster.FlipRowInvolution | JVTK/src/eu/mihosoft/vtk/VTKJPanel.java:377-379 | flipping a byte position twice gives it back, so the flip is a bijection on the buffer |
| Raster.Mirror | JVTK/src/eu/mihosoft/vtk/VTKJPanel.java:377-379 | the filtered raster has as many bytes as the source raster; MirrorSample and MirrorInvolution state what each byte is |
| Raster.MirrorSample | JVTK/src/eu/mihosoft/vtk/VTKJPanel.java:354-379 | in the mirrored buffer, band b of sample (x, y) is band b of sample (x, h - y) of the raster |
| Raster.MirrorInvolution | JVTK/src/eu/mihosoft/vtk/VTKJPanel.java:377-379 | mirroring the mirrored buffer gives the raster back |
| Raster.Snapshot | JVTK/src/eu/mihosoft/vtk/VTKJPanel.java:364-382 | the image built from a w x h render window is (w+1) x (h+1) with one RGBA quadruple per sample |
| Panel.VTKJPanel.constructor | JVTK/src/eu/mihosoft/vtk/VTKJPanel.java:110-163 | a new panel has no image, sample model or transform, is not fullscreen, has alpha 1, and has the content marked changed so the first paint renders |
| Panel.VTKJPanel.ContentChanged | JVTK/src/eu/mihosoft/vtk/VTKJPanel.java:268-270 | sets the flag and nothing else, so repeated calls act as one and no render happens |
| Panel.VTKJPanel.SetBounds | JVTK/src/eu/mihosoft/vtk/VTKJPanel.java:240-246 | the panel takes the new bounds; outside fullscreen the hidden frame takes the new size and the flag is set; in fullscreen the flag and the frame are untouched |
| Panel.VTKJPanel.UpdateImage | JVTK/src/eu/mihosoft/vtk/VTKJPanel.java:330-383 | without visible actors the image, sample model and transform are unchanged; otherwise the image is the mirrored snapshot of the render window, matching its size, and the frame is resized to the panel exactly when the layout was rebuilt outside fullscreen; the class invariant is kept |
| Panel.VTKJPanel.Render | JVTK/src/eu/mihosoft/vtk/VTKJPanel.java:251-260 | one native render; afterwards the flag is clear whatever it was; renderContent is whether an actor is visible; with visible actors the new image makes the cache fresh, and without them the cache is unchanged |
| Panel.VTKJPanel.SizeChanged | JVTK/src/eu/mihosoft/vtk/VTKJPanel.java:317-325 | under the class invariant, the size has changed exactly when the cached sample model is not the one built for the render window's current size |
| Panel.VTKJPanel.GetImage | JVTK/src/eu/mihosoft/vtk/VTKJPanel.java:300-325 | renders once exactly when the image is missing, the render size differs from the image size minus one, or the flag is set; otherwise it returns the cached image and changes nothing. When it renders with visible actors and a stale layout outside fullscreen, the hidden frame takes the panel's size; otherwise the frame is untouched |
| Panel.VTKJPanel.EnterFullscreenMode | JVTK/src/eu/mihosoft/vtk/VTKJPanel.java:187-191 | the hidden frame enters fullscreen on screen 0 with native support requested and ends visible with the screen's bounds, unless it already held native full-screen mode; the fullscreen flag is set. On the native branch a JFrame becomes non-resizable, the frame becomes the device's full-screen window with its earlier bounds saved, and a window it displaces gets the restored bounds with its visibility and resizability unchanged. On the fallback branch the frame's resizability, the device and any other full-screen window are left alone |
| Panel.VTKJPanel.LeaveFullscreenMode | JVTK/src/eu/mihosoft/vtk/VTKJPanel.java:172-180 | the hidden frame leaves fullscreen and is hidden, and the fullscreen flag is cleared. The two setSize calls then go through setBounds: the panel becomes 1 x 1, and so does the hidden frame, at its restored or unchanged position. The content is marked changed. When full-screen mode is supported the device is released, a JFrame becomes resizable, and a released window other than the frame gets the restored bounds with its visibility and resizability unchanged; otherwise the device, the frame's resizability and any other full-screen window are left alone |
| Panel.VTKJPanel.SetContentAlpha | JVTK/src/eu/mihosoft/vtk/VTKJPanel.java:529-532 | stores the alpha value and sets the dirty flag |
| Panel.VTKJPanel.MouseClicked | JVTK/src/eu/mihosoft/vtk/VTKJPanel.java:399-412 | sets the dirty flag; a double click also enters fullscreen with every effect EnterFullscreenMode states: the hidden frame visible with the screen's bounds unless it already held native full-screen mode, the device, the frame's resizability and a displaced window as on each branch; any other click leaves the fullscreen state and the frame alone |
| Panel.VTKJPanel.MousePressed | JVTK/src/eu/mihosoft/vtk/VTKJPanel.java:414-420 | sets the dirty flag and nothing else |
| Panel.VTKJPanel.MouseDragged | JVTK/src/eu/mihosoft/vtk/VTKJPanel.java:442-450 | sets the dirty flag and nothing else |
| Panel.VTKJPanel.KeyTyped | JVTK/src/eu/mihosoft/vtk/VTKJPanel.java:452-458 | sets the dirty flag and nothing else |
| Panel.VTKJPanel.KeyReleased | JVTK/src/eu/mihosoft/vtk/VTKJPanel.java:464-470 | sets the dirty flag and nothing else |
| Panel.VTKJPanel.KeyPressed | JVTK/src/eu/mihosoft/vtk/VTKJPanel.java:472-478 | the key goes to the hosted native panel, whose handler leaves fullscreen on Escape (VTKJPanel.java:116-122): then the flag is cleared, the frame is hidden, the panel and the frame become 1 x 1, and the device and a released window end as LeaveFullscreenMode states. Any other key keeps the fullscreen flag and the bounds. Either way the dirty flag is set |
| Panel.VTKJPanel.MouseReleased | JVTK/src/eu/mihosoft/vtk/VTKJPanel.java:422-425 | leaves the panel's state, the dirty flag included, unchanged |
| Panel.VTKJPanel.MouseEntered | JVTK/src/eu/mihosoft/vtk/VTKJPanel.java:427-430 | leaves the panel's state, the dirty flag included, unchanged |
| Panel.VTKJPanel.MouseExited | JVTK/src/eu/mihosoft/vtk/VTKJPanel.java:432-435 | leaves the panel's state, the dirty flag included, unchanged |
| Panel.VTKJPanel.MouseMoved | JVTK/src/eu/mihosoft/vtk/VTKJPanel.java:437-440 | leaves the panel's state, the dirty flag included, unchanged |
| Panel.VTKJPanel.NativeKeyPressed | JVTK/src/eu/mihosoft/vtk/VTKJPanel.java:113-124 | Escape on the hosted native panel leaves fullscreen with every effect LeaveFullscreenMode states: the frame hidden, the panel and the frame 1 x 1, the content marked changed, the device and a released window as on each branch; any other key changes nothing |
| Panel.VTKJPanel.NativeMouseClicked | JVTK/src/eu/mihosoft/vtk/VTKJPanel.java:146-155 | a double click on the hosted native panel leaves fullscreen with every effect LeaveFullscreenMode states: the frame hidden, the panel and the frame 1 x 1, the content marked changed, the device and a released window as on each branch; any other click changes nothing |
| Panel.InputThenTwoPaints | JVTK/src/eu/mihosoft/vtk/VTKJPanel.java:300-307 | after an input event with visible actors and an unchanged render window, the first paint renders exactly once and the second returns the same cached image |

## Left out

- Native VTK calls (`Render`, `VisibleActorCount`, `GetSize`, `GetRGBACharPixelData`, `HardCopy`, `Report`, `Delete`, `lock`/`unlock`) are foreign code. Their results are the fields of `RenderWindow`.
- Panel.RenderWindow.Valid: the pixel buffer is assumed to hold `4*(w+1)*(h+1)` bytes, the size of VTK's inclusive pixel query. A shorter buffer would make the AWT raster constructor throw, and that error path is not modelled.
- The nearest-neighbour resampling inside `AffineTransformOp` is modelled only by the integer row map it performs: destination row r reads raster row h - r.
- The `DataBufferByte` element count `width*height` passed alongside the buffer is not modelled. The raster reads the whole byte array through the sample model.
- The colour model, `createColorModel`, `setBackground` and its float colour conversion are left out. They do not affect the cache or the flag.
- `paintComponent`, its alpha compositing and Swing's asynchronous `repaint()` are left out. Painting is `GetImage`, which `InputThenTwoPaints` calls directly.
- `contentAlpha` is a Java `float` and is modelled as a `real`. It is only stored, never computed with.
- The `synchronized` modifiers, the renderer lock, `invokeAndWait`, `invokeLater` and the `Timer` in `repair()` are concurrency or thread marshalling, and are left out. So the delayed re-render after leaving fullscreen is not modelled.
- Panel.VTKJPanel.LeaveFullscreenMode: `revalidate()` only queues a later layout pass, so it is left out. Any resizing that pass does later is not modelled, and neither is the delayed render that `repair()` schedules.
- Panel.VTKJPanel.constructor: the hidden frame is passed in already built. Its undecorated setup and its visible/invisible initialisation trick are not modelled. Neither are the listener registrations and the initial background colour.
- Panel.VTKJPanel.SetBounds: the `window != null` guard is not modelled, because the frame always exists in the model.
- Forwarding events to the hosted native panel is modelled only where the panel's own code handles them: `panel.keyPressed` runs the Escape handler (`KeyPressed` calls `NativeKeyPressed`). The rest (`panel.mouseClicked`, `panel.keyReleased`, the `vtkPanel` superclass handlers) is VTK interaction code that changes the camera, not the panel's fields, and is left out. So `keyTyped` forwarding as `keyReleased` is not visible in the model.
- `dispose`, `report`, `HardCopy`, `getRenderer`, `getRenderWindow` and `getContentAlpha` only delegate to foreign objects or return a field, so they are not modelled.
- `loadLibraries` and `vtkNativeLibrary.LoadAllNativeLibraries` are foreign calls. Of library loading, only `addNativeLibraryPath` is modelled.
- SysUtil.LibraryPaths.AddNativeLibraryPath: the reflective access to `ClassLoader.usr_paths` and `System.setProperty` are modelled as two fields. The `IOException` raised when reflection fails is not modelled.
- `String.contains` is modelled by `SysUtil.Contains`, a substring test over `seq<char>`.
- A window's screen device is fixed in the model. Moving a window between screens is not modelled.
- Writing a diagnostic to `System.err` or `System.out` is modelled by the boolean result `warned`.
- GraphicsUtil.LeaveFullscreenMode: a frame whose screen is not found would make the code index the device array with -1 and throw. The model requires the frame's device to be among the devices instead.
- GraphicsUtil.GetGraphicsDevice: an out-of-range id throws in the code. The model makes the range a precondition and states only that the result is one of the devices.
- GraphicsUtil.GraphicsDevice.SetFullScreenWindow: only the bounds, visibility and full-screen window of the JDK call are modelled. Display-mode changes, window shapes and the `validate()` and `toFront()` calls are left out.
- `GraphicsUtil`'s private constructor only throws, and is not modelled.
