/** The lightweight Swing panel that shows a VTK render window's content
    (VTKJPanel.java): an offscreen image cached between paints, a dirty flag
    set by input events and cleared by rendering, and the fullscreen flag.
    The native VTK calls are replaced by the fields of a RenderWindow object
    that hold what those calls report. */
module Panel {
  import opened Raster
  import GraphicsUtil

  datatype Option<T> = None | Some(value: T)

  /** java.awt.event.KeyEvent.VK_ESCAPE. */
  const VkEscape: int := 0x1B

  /** The native render window and its renderer, as seen through the calls
      the panel makes: GetSize, VisibleActorCount and GetRGBACharPixelData
      over the rectangle (0, 0)..(width, height), both corners included. */
  class RenderWindow {
    var width: nat
    var height: nat
    var visibleActorCount: nat
    var pixels: seq<byte>

    /** The pixel query covers (width + 1) x (height + 1) RGBA pixels. */
    ghost predicate Valid()
      reads this
    {
      |pixels| == BufferSize(width, height)
    }

    constructor (w: nat, h: nat, actors: nat, data: seq<byte>)
      requires |data| == BufferSize(w, h)
      ensures Valid()
      ensures width == w && height == h && visibleActorCount == actors && pixels == data
    {
      width, height, visibleActorCount, pixels := w, h, actors, data;
    }
  }

  /** The cached image, sample model and transform agree: the model and the
      transform are the ones built for the render size the image was made at. */
  ghost predicate Consistent(img: Image, sm: SampleModel, at: AffineTransform) {
    && img.width >= 1 && img.height >= 1
    && |img.data| == BufferSize(img.width - 1, img.height - 1)
    && sm == LayoutFor(img.width - 1, img.height - 1)
    && at == MirrorTransform(img.height - 1)
  }

  class VTKJPanel {
    const rw: RenderWindow
    /** The hidden frame that hosts the native panel. */
    const window: GraphicsUtil.Window
    var bounds: GraphicsUtil.Rect
    var img: Option<Image>
    var sampleModel: Option<SampleModel>
    var at: Option<AffineTransform>
    var renderContent: bool
    var fullscreen: bool
    var contentChanged: bool
    var contentAlpha: real
    /** Number of native render calls made so far. */
    ghost var renders: nat

    /** The image, the sample model and the transform are present together
        and consistent with each other. */
    ghost predicate Valid()
      reads this
    {
      && (img.None? <==> sampleModel.None?)
      && (img.None? <==> at.None?)
      && (img.Some? ==> Consistent(img.value, sampleModel.value, at.value))
    }

    /** sizeChanged: the render window's size differs from the cached image's
        size minus one. */
    predicate SizeChanged()
      reads this, rw
      requires img.Some?
      ensures Valid() ==> (SizeChanged() <==> sampleModel.value != LayoutFor(rw.width, rw.height))
    {
      rw.width != img.value.width - 1 || rw.height != img.value.height - 1
    }

    /** The cached image cannot be reused: getImage must render first. */
    predicate Stale()
      reads this, rw
    {
      img.None? || SizeChanged() || contentChanged
    }

    /** updateImage builds a new sample model and transform. */
    predicate LayoutStale()
      reads this, rw
      requires Valid()
    {
      sampleModel.None? || at.None? || SizeChanged()
    }

    /** The constructor ends by marking the content changed, so the first
        paint renders. */
    constructor (renderWindow: RenderWindow, frame: GraphicsUtil.Window)
      ensures Valid()
      ensures rw == renderWindow && window == frame
      ensures img == None && sampleModel == None && at == None
      ensures contentChanged && !fullscreen && !renderContent
      ensures contentAlpha == 1.0 && renders == 0
      ensures bounds == GraphicsUtil.Rect(0, 0, 0, 0)
    {
      rw := renderWindow;
      window := frame;
      bounds := GraphicsUtil.Rect(0, 0, 0, 0);
      img, sampleModel, at := None, None, None;
      renderContent, fullscreen := false, false;
      contentAlpha := 1.0;
      renders := 0;
      contentChanged := true;
    }

    /** contentChanged(): only raises the flag; it does not render. */
    method ContentChanged()
      modifies this`contentChanged
      ensures contentChanged
    {
      contentChanged := true;
    }

    /** setBounds: outside fullscreen the hidden frame takes the new size and
        the content is marked changed. */
    method SetBounds(x: int, y: int, w: int, h: int)
      modifies this`bounds, this`contentChanged, window`bounds
      ensures bounds == GraphicsUtil.Rect(x, y, w, h)
      ensures !fullscreen ==> contentChanged
      ensures !fullscreen ==> window.bounds == GraphicsUtil.Rect(old(window.bounds.x), old(window.bounds.y), w, h)
      ensures fullscreen ==> contentChanged == old(contentChanged) && window.bounds == old(window.bounds)
    {
      bounds := GraphicsUtil.Rect(x, y, w, h);
      if !fullscreen {
        window.SetSize(w, h);
        ContentChanged();
      }
    }

    /** updateImage: nothing happens without visible actors. Otherwise the
        sample model and the mirror transform are rebuilt when missing or
        when the size changed (and then the hidden frame is resized to the
        panel outside fullscreen), and the image becomes the mirrored pixel
        buffer. */
    method UpdateImage()
      requires Valid() && rw.Valid()
      modifies this`img, this`sampleModel, this`at, window`bounds
      ensures Valid()
      ensures !renderContent ==>
        img == old(img) && sampleModel == old(sampleModel) && at == old(at)
      ensures renderContent ==> img == Some(Snapshot(rw.width, rw.height, rw.pixels)) && !SizeChanged()
      ensures renderContent && old(LayoutStale()) && !fullscreen ==>
        window.bounds == GraphicsUtil.Rect(old(window.bounds.x), old(window.bounds.y), bounds.width, bounds.height)
      ensures !(renderContent && old(LayoutStale()) && !fullscreen) ==> window.bounds == old(window.bounds)
    {
      if !renderContent {
        return;
      }
      var width, height := rw.width, rw.height;
      if sampleModel.None? || at.None? || SizeChanged() {
        sampleModel := Some(LayoutFor(width, height));
        at := Some(MirrorTransform(height));
        if !fullscreen {
          window.SetSize(bounds.width, bounds.height);
        }
      }
      var renderData := rw.pixels;
      img := Some(Snapshot(width, height, renderData));
    }

    /** render: one native render call, record whether any actor is visible,
        update the image, clear the dirty flag. */
    method Render()
      requires Valid() && rw.Valid()
      modifies this, window`bounds
      ensures Valid()
      ensures !contentChanged
      ensures renders == old(renders) + 1
      ensures renderContent == (rw.visibleActorCount > 0)
      ensures fullscreen == old(fullscreen) && bounds == old(bounds) && contentAlpha == old(contentAlpha)
      ensures !renderContent ==>
        img == old(img) && sampleModel == old(sampleModel) && at == old(at)
      ensures renderContent ==> img == Some(Snapshot(rw.width, rw.height, rw.pixels)) && !Stale()
      ensures renderContent && old(LayoutStale()) && !fullscreen ==>
        window.bounds == GraphicsUtil.Rect(old(window.bounds.x), old(window.bounds.y), bounds.width, bounds.height)
      ensures !(renderContent && old(LayoutStale()) && !fullscreen) ==> window.bounds == old(window.bounds)
    {
      renders := renders + 1;
      renderContent := rw.visibleActorCount > 0;
      UpdateImage();
      contentChanged := false;
    }

    /** getImage: renders exactly when the image is missing, the size changed
        or the content changed, and otherwise hands back the cached image
        without touching anything. */
    method GetImage() returns (r: Option<Image>)
      requires Valid() && rw.Valid()
      modifies this, window`bounds
      ensures Valid()
      ensures r == img
      ensures renders == old(renders) + (if old(Stale()) then 1 else 0)
      ensures !old(Stale()) ==> unchanged(this) && window.bounds == old(window.bounds)
      ensures old(Stale()) ==> !contentChanged && renderContent == (rw.visibleActorCount > 0)
      ensures old(Stale()) && rw.visibleActorCount > 0 ==> r == Some(Snapshot(rw.width, rw.height, rw.pixels)) && !Stale()
      ensures old(Stale()) && rw.visibleActorCount == 0 ==> r == old(img)
      ensures old(Stale()) && rw.visibleActorCount > 0 && old(LayoutStale()) && !fullscreen ==>
        window.bounds == GraphicsUtil.Rect(old(window.bounds.x), old(window.bounds.y), bounds.width, bounds.height)
      ensures !(old(Stale()) && rw.visibleActorCount > 0 && old(LayoutStale()) && !fullscreen) ==>
        window.bounds == old(window.bounds)
      ensures fullscreen == old(fullscreen) && bounds == old(bounds) && contentAlpha == old(contentAlpha)
    {
      if img.None? || SizeChanged() || contentChanged {
        Render();
      }
      r := img;
    }

    /** enterFullscreenMode: the hidden frame goes fullscreen on screen 0
        with native support requested, which leaves it visible with the
        screen's bounds unless it already held native full-screen mode, and
        the flag is set. */
    method EnterFullscreenMode(devices: seq<GraphicsUtil.GraphicsDevice>, osName: string)
      requires 0 < |devices|
      modifies this`fullscreen, window, devices[0], devices[0].fullScreenWindow
      ensures fullscreen
      ensures !(GraphicsUtil.UsesNativeFullscreen(devices[0], true, osName) && old(devices[0].fullScreenWindow) == window) ==>
        window.bounds == devices[0].defaultBounds && window.visible
      ensures var dev := devices[0]; var previous := old(dev.fullScreenWindow);
        if GraphicsUtil.UsesNativeFullscreen(dev, true, osName) then
          && dev.fullScreenWindow == window
          && window.resizable == (if window.isJFrame then false else old(window.resizable))
          && (previous == window ==>
                window.bounds == old(window.bounds) && window.visible == old(window.visible)
                && dev.windowedModeBounds == old(dev.windowedModeBounds))
          && (previous != window ==> dev.windowedModeBounds == old(window.bounds))
          && (previous != null && previous != window ==>
                && previous.bounds == GraphicsUtil.RestoredBounds(old(dev.windowedModeBounds))
                && previous.visible == old(previous.visible)
                && previous.resizable == old(previous.resizable))
        else
          && dev.fullScreenWindow == previous
          && dev.windowedModeBounds == old(dev.windowedModeBounds)
          && window.resizable == old(window.resizable)
          && (previous != null && previous != window ==>
                && previous.bounds == old(previous.bounds)
                && previous.visible == old(previous.visible)
                && previous.resizable == old(previous.resizable))
    {
      var _ := GraphicsUtil.EnterFullscreenModeDefault(window, devices, osName);
      fullscreen := true;
    }

    /** leaveFullscreenMode: the hidden frame leaves fullscreen (getting its
        windowed bounds back when it was the screen's full-screen window) and
        is hidden, and the flag is cleared. Then the panel is resized to 1 x 1
        and resized again to its current size; outside fullscreen both go
        through setBounds, which shrinks the hidden frame to 1 x 1 and marks
        the content changed. */
    method LeaveFullscreenMode(devices: seq<GraphicsUtil.GraphicsDevice>)
      requires window.device in devices
      modifies this`fullscreen, this`bounds, this`contentChanged, window, window.device, window.device.fullScreenWindow
      ensures !fullscreen && !window.visible && contentChanged
      ensures bounds == GraphicsUtil.Rect(old(bounds.x), old(bounds.y), 1, 1)
      ensures var dev := window.device;
        var restored := dev.fullScreenSupported && old(dev.fullScreenWindow) == window;
        window.bounds == GraphicsUtil.Rect(
          if restored then old(dev.windowedModeBounds.x) else old(window.bounds.x),
          if restored then old(dev.windowedModeBounds.y) else old(window.bounds.y),
          1, 1)
      ensures var dev := window.device; var previous := old(dev.fullScreenWindow);
        if dev.fullScreenSupported then
          && dev.fullScreenWindow == null
          && window.resizable == (window.isJFrame || old(window.resizable))
          && (previous != null && previous != window ==>
                && previous.bounds == GraphicsUtil.RestoredBounds(old(dev.windowedModeBounds))
                && previous.visible == old(previous.visible)
                && previous.resizable == old(previous.resizable))
        else
          && dev.fullScreenWindow == previous
          && dev.windowedModeBounds == old(dev.windowedModeBounds)
          && window.resizable == old(window.resizable)
          && (previous != null && previous != window ==>
                && previous.bounds == old(previous.bounds)
                && previous.visible == old(previous.visible)
                && previous.resizable == old(previous.resizable))
    {
      var _ := GraphicsUtil.LeaveFullscreenMode(window, devices);
      window.visible := false;
      fullscreen := false;
      SetBounds(bounds.x, bounds.y, 1, 1);
      SetBounds(bounds.x, bounds.y, bounds.width, bounds.height);
    }

    /** setContentAlpha: stores the value and marks the content changed. */
    method SetContentAlpha(alpha: real)
      modifies this`contentAlpha, this`contentChanged
      ensures contentAlpha == alpha && contentChanged
    {
      contentAlpha := alpha;
      ContentChanged();
    }

    /** mouseClicked: a double click enters fullscreen; every click marks the
        content changed. */
    method MouseClicked(clickCount: int, devices: seq<GraphicsUtil.GraphicsDevice>, osName: string)
      requires clickCount == 2 ==> 0 < |devices|
      modifies this`fullscreen, this`contentChanged
      modifies if clickCount == 2 then {window, devices[0], devices[0].fullScreenWindow} else {}
      ensures contentChanged
      ensures clickCount == 2 ==> fullscreen
      ensures clickCount == 2 && !(GraphicsUtil.UsesNativeFullscreen(devices[0], true, osName) && old(devices[0].fullScreenWindow) == window) ==>
        window.bounds == devices[0].defaultBounds && window.visible
      ensures clickCount == 2 ==> (var dev := devices[0]; var previous := old(dev.fullScreenWindow);
        if GraphicsUtil.UsesNativeFullscreen(dev, true, osName) then
          && dev.fullScreenWindow == window
          && window.resizable == (if window.isJFrame then false else old(window.resizable))
          && (previous == window ==>
                window.bounds == old(window.bounds) && window.visible == old(window.visible)
                && dev.windowedModeBounds == old(dev.windowedModeBounds))
          && (previous != window ==> dev.windowedModeBounds == old(window.bounds))
          && (previous != null && previous != window ==>
                && previous.bounds == GraphicsUtil.RestoredBounds(old(dev.windowedModeBounds))
                && previous.visible == old(previous.visible)
                && previous.resizable == old(previous.resizable))
        else
          && dev.fullScreenWindow == previous
          && dev.windowedModeBounds == old(dev.windowedModeBounds)
          && window.resizable == old(window.resizable)
          && (previous != null && previous != window ==>
                && previous.bounds == old(previous.bounds)
                && previous.visible == old(previous.visible)
                && previous.resizable == old(previous.resizable)))
      ensures clickCount != 2 ==> fullscreen == old(fullscreen)
    {
      if clickCount == 2 {
        EnterFullscreenMode(devices, osName);
      }
      ContentChanged();
    }

    method MousePressed()
      modifies this`contentChanged
      ensures contentChanged
    {
      ContentChanged();
    }

    method MouseDragged()
      modifies this`contentChanged
      ensures contentChanged
    {
      ContentChanged();
    }

    method KeyTyped()
      modifies this`contentChanged
      ensures contentChanged
    {
      ContentChanged();
    }

    method KeyReleased()
      modifies this`contentChanged
      ensures contentChanged
    {
      ContentChanged();
    }

    /** keyPressed: forwarded to the hosted native panel, whose key handler
        leaves fullscreen on Escape; then the content is marked changed. */
    method KeyPressed(keyCode: int, devices: seq<GraphicsUtil.GraphicsDevice>)
      requires keyCode == VkEscape ==> window.device in devices
      modifies this`fullscreen, this`bounds, this`contentChanged
      modifies if keyCode == VkEscape then {window, window.device, window.device.fullScreenWindow} else {}
      ensures contentChanged
      ensures keyCode == VkEscape ==> (!fullscreen && !window.visible)
      ensures keyCode == VkEscape ==> (bounds == GraphicsUtil.Rect(old(bounds.x), old(bounds.y), 1, 1))
      ensures keyCode == VkEscape ==> (var dev := window.device;
        var restored := dev.fullScreenSupported && old(dev.fullScreenWindow) == window;
        window.bounds == GraphicsUtil.Rect(
          if restored then old(dev.windowedModeBounds.x) else old(window.bounds.x),
          if restored then old(dev.windowedModeBounds.y) else old(window.bounds.y),
          1, 1))
      ensures keyCode == VkEscape ==> (var dev := window.device; var previous := old(dev.fullScreenWindow);
        if dev.fullScreenSupported then
          && dev.fullScreenWindow == null
          && window.resizable == (window.isJFrame || old(window.resizable))
          && (previous != null && previous != window ==>
                && previous.bounds == GraphicsUtil.RestoredBounds(old(dev.windowedModeBounds))
                && previous.visible == old(previous.visible)
                && previous.resizable == old(previous.resizable))
        else
          && dev.fullScreenWindow == previous
          && dev.windowedModeBounds == old(dev.windowedModeBounds)
          && window.resizable == old(window.resizable)
          && (previous != null && previous != window ==>
                && previous.bounds == old(previous.bounds)
                && previous.visible == old(previous.visible)
                && previous.resizable == old(previous.resizable)))
      ensures keyCode != VkEscape ==> fullscreen == old(fullscreen) && bounds == old(bounds)
    {
      NativeKeyPressed(keyCode, devices);
      ContentChanged();
    }

    /** mouseReleased, mouseMoved, mouseExited and mouseEntered only forward
        the event or request focus: the panel's state is left alone. */
    method MouseReleased()
      ensures unchanged(this)
    {
    }

    method MouseMoved()
      ensures unchanged(this)
    {
    }

    method MouseExited()
      ensures unchanged(this)
    {
    }

    method MouseEntered()
      ensures unchanged(this)
    {
    }

    /** Key handler of the hosted native panel: Escape leaves fullscreen. */
    method NativeKeyPressed(keyCode: int, devices: seq<GraphicsUtil.GraphicsDevice>)
      requires keyCode == VkEscape ==> window.device in devices
      modifies this`fullscreen, this`bounds, this`contentChanged
      modifies if keyCode == VkEscape then {window, window.device, window.device.fullScreenWindow} else {}
      ensures keyCode == VkEscape ==> (!fullscreen && !window.visible && contentChanged)
      ensures keyCode == VkEscape ==> (bounds == GraphicsUtil.Rect(old(bounds.x), old(bounds.y), 1, 1))
      ensures keyCode == VkEscape ==> (var dev := window.device;
        var restored := dev.fullScreenSupported && old(dev.fullScreenWindow) == window;
        window.bounds == GraphicsUtil.Rect(
          if restored then old(dev.windowedModeBounds.x) else old(window.bounds.x),
          if restored then old(dev.windowedModeBounds.y) else old(window.bounds.y),
          1, 1))
      ensures keyCode == VkEscape ==> (var dev := window.device; var previous := old(dev.fullScreenWindow);
        if dev.fullScreenSupported then
          && dev.fullScreenWindow == null
          && window.resizable == (window.isJFrame || old(window.resizable))
          && (previous != null && previous != window ==>
                && previous.bounds == GraphicsUtil.RestoredBounds(old(dev.windowedModeBounds))
                && previous.visible == old(previous.visible)
                && previous.resizable == old(previous.resizable))
        else
          && dev.fullScreenWindow == previous
          && dev.windowedModeBounds == old(dev.windowedModeBounds)
          && window.resizable == old(window.resizable)
          && (previous != null && previous != window ==>
                && previous.bounds == old(previous.bounds)
                && previous.visible == old(previous.visible)
                && previous.resizable == old(previous.resizable)))
      ensures keyCode != VkEscape ==> unchanged(this)
    {
      if keyCode == VkEscape {
        LeaveFullscreenMode(devices);
      }
    }

    /** Mouse handler of the hosted native panel: a double click leaves
        fullscreen. */
    method NativeMouseClicked(clickCount: int, devices: seq<GraphicsUtil.GraphicsDevice>)
      requires clickCount == 2 ==> window.device in devices
      modifies this`fullscreen, this`bounds, this`contentChanged
      modifies if clickCount == 2 then {window, window.device, window.device.fullScreenWindow} else {}
      ensures clickCount == 2 ==> (!fullscreen && !window.visible && contentChanged)
      ensures clickCount == 2 ==> (bounds == GraphicsUtil.Rect(old(bounds.x), old(bounds.y), 1, 1))
      ensures clickCount == 2 ==> (var dev := window.device;
        var restored := dev.fullScreenSupported && old(dev.fullScreenWindow) == window;
        window.bounds == GraphicsUtil.Rect(
          if restored then old(dev.windowedModeBounds.x) else old(window.bounds.x),
          if restored then old(dev.windowedModeBounds.y) else old(window.bounds.y),
          1, 1))
      ensures clickCount == 2 ==> (var dev := window.device; var previous := old(dev.fullScreenWindow);
        if dev.fullScreenSupported then
          && dev.fullScreenWindow == null
          && window.resizable == (window.isJFrame || old(window.resizable))
          && (previous != null && previous != window ==>
                && previous.bounds == GraphicsUtil.RestoredBounds(old(dev.windowedModeBounds))
                && previous.visible == old(previous.visible)
                && previous.resizable == old(previous.resizable))
        else
          && dev.fullScreenWindow == previous
          && dev.windowedModeBounds == old(dev.windowedModeBounds)
          && window.resizable == old(window.resizable)
          && (previous != null && previous != window ==>
                && previous.bounds == old(previous.bounds)
                && previous.visible == old(previous.visible)
                && previous.resizable == old(previous.resizable)))
      ensures clickCount != 2 ==> unchanged(this)
    {
      if clickCount == 2 {
        LeaveFullscreenMode(devices);
      }
    }
  }

  /** An input event followed by two paints with visible actors and an
      unchanged render window: the first paint renders once, the second
      reuses the cached image. */
  method InputThenTwoPaints(p: VTKJPanel) returns (first: Option<Image>, second: Option<Image>)
    requires p.Valid() && p.rw.Valid() && p.rw.visibleActorCount > 0
    modifies p, p.window`bounds
    ensures p.renders == old(p.renders) + 1
    ensures first == second == Some(Snapshot(p.rw.width, p.rw.height, p.rw.pixels))
    ensures !p.contentChanged
  {
    p.MousePressed();
    first := p.GetImage();
    second := p.GetImage();
  }
}
