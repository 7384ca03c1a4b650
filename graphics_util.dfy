/** Screen lookup and fullscreen switching (GraphicsUtil.java). The screen
    devices of the local graphics environment and the `os.name` property are
    parameters; a window and a screen device are objects whose fields are the
    parts of AWT state these operations read or write. */
module GraphicsUtil {
  import Search
  import SysUtil

  /** java.awt.Rectangle. */
  datatype Rect = Rect(x: int, y: int, width: int, height: int)

  /** A screen (java.awt.GraphicsDevice). */
  class GraphicsDevice {
    const fullScreenSupported: bool
    /** Bounds of the device's default configuration. */
    const defaultBounds: Rect
    /** The window currently in exclusive full-screen mode, if any. */
    var fullScreenWindow: Window?
    /** The bounds the full-screen window had before it entered full-screen
        mode, given back to it when it leaves. */
    var windowedModeBounds: Rect

    constructor (supported: bool, bounds: Rect)
      ensures fullScreenSupported == supported && defaultBounds == bounds
      ensures fullScreenWindow == null
    {
      fullScreenSupported := supported;
      defaultBounds := bounds;
      fullScreenWindow := null;
      windowedModeBounds := Rect(0, 0, 0, 0);
    }

    /** setFullScreenWindow, as the JDK implements it. Setting the window that
        is already in full-screen mode changes nothing. Otherwise the window
        that was in full-screen mode gets its saved windowed bounds back, and
        a new full-screen window has its bounds saved, takes the screen's
        bounds and is made visible. */
    method SetFullScreenWindow(w: Window?)
      modifies this`fullScreenWindow, this`windowedModeBounds, fullScreenWindow, w
      ensures fullScreenWindow == w
      ensures w == old(fullScreenWindow) ==> unchanged(this) && (w != null ==> unchanged(w))
      ensures old(fullScreenWindow) != null && old(fullScreenWindow) != w ==>
        && old(fullScreenWindow).bounds == RestoredBounds(old(windowedModeBounds))
        && old(fullScreenWindow).visible == old(fullScreenWindow.visible)
        && old(fullScreenWindow).resizable == old(fullScreenWindow.resizable)
      ensures w != null && w != old(fullScreenWindow) ==>
        && w.bounds == defaultBounds && w.visible && w.resizable == old(w.resizable)
        && windowedModeBounds == old(w.bounds)
    {
      if w == fullScreenWindow {
        return;
      }
      var previous := fullScreenWindow;
      if previous != null {
        previous.bounds := RestoredBounds(windowedModeBounds);
      }
      fullScreenWindow := w;
      if w != null {
        windowedModeBounds := w.bounds;
        w.bounds := defaultBounds;
        w.visible := true;
      }
    }
  }

  /** The bounds a window gets back when it leaves full-screen mode: the saved
      windowed bounds, with a zero width or height (a window that entered
      full-screen mode before it was realized) replaced by 1. */
  function RestoredBounds(saved: Rect): (r: Rect)
    ensures r.x == saved.x && r.y == saved.y
    ensures r.width != 0 && r.height != 0
    ensures saved.width != 0 && saved.height != 0 ==> r == saved
  {
    Rect(saved.x, saved.y,
         if saved.width == 0 then 1 else saved.width,
         if saved.height == 0 then 1 else saved.height)
  }

  /** A top-level window (java.awt.Window); `isJFrame` tells whether it is a
      javax.swing.JFrame, the only kind whose resizability is touched. */
  class Window {
    const isJFrame: bool
    /** The device of the window's graphics configuration. */
    const device: GraphicsDevice
    var bounds: Rect
    var visible: bool
    var resizable: bool

    constructor (jframe: bool, dev: GraphicsDevice, b: Rect)
      ensures isJFrame == jframe && device == dev && bounds == b
      ensures !visible && resizable
    {
      isJFrame := jframe;
      device := dev;
      bounds := b;
      visible := false;
      resizable := true;
    }

    /** Component.setSize: keeps the location, replaces width and height. */
    method SetSize(width: int, height: int)
      modifies this`bounds
      ensures bounds == Rect(old(bounds.x), old(bounds.y), width, height)
    {
      bounds := Rect(bounds.x, bounds.y, width, height);
    }
  }

  /** getGraphicsDevice: a raw index into the device array, so the id must
      be in range. */
  function GetGraphicsDevice(devices: seq<GraphicsDevice>, deviceId: int): (d: GraphicsDevice)
    requires 0 <= deviceId < |devices|
    ensures d in devices
  {
    devices[deviceId]
  }

  /** getScreenId: index of the first device equal to the window's device,
      or -1 when no device matches. */
  method GetScreenId(w: Window, devices: seq<GraphicsDevice>) returns (result: int)
    ensures -1 <= result < |devices|
    ensures result == -1 <==> w.device !in devices
    ensures result >= 0 ==> devices[result] == w.device
    ensures result >= 0 ==> forall j | 0 <= j < result :: devices[j] != w.device
    ensures result == Search.IndexOf(devices, w.device)
  {
    result := -1;
    var d := w.device;
    var i := 0;
    while i < |devices|
      invariant 0 <= i <= |devices|
      invariant result == -1
      invariant d !in devices[..i]
    {
      if d == devices[i] {
        result := i;
        break;
      }
      i := i + 1;
    }
    if result == -1 {
      assert devices[..i] == devices;
    }
  }

  /** The device found by the screen lookup is the window's own device. */
  lemma ScreenIdRoundTrip(w: Window, devices: seq<GraphicsDevice>)
    requires w.device in devices
    ensures 0 <= Search.IndexOf(devices, w.device)
    ensures GetGraphicsDevice(devices, Search.IndexOf(devices, w.device)) == w.device
  {
  }

  /** The branch enterFullscreenMode takes: native full-screen mode only when
      the device supports it, it is asked for, and the system is Mac OS X. */
  predicate UsesNativeFullscreen(dev: GraphicsDevice, nativeSupport: bool, osName: string)
    ensures UsesNativeFullscreen(dev, nativeSupport, osName) <==>
      && dev.fullScreenSupported && nativeSupport
      && SysUtil.Contains(osName, SysUtil.OsMac) && !SysUtil.Contains(osName, SysUtil.OsLinux)
  {
    dev.fullScreenSupported && nativeSupport && SysUtil.IsMacOSX(osName)
  }

  /** enterFullscreenMode(frame, screenID, nativeSupport). On the native
      branch a JFrame is made non-resizable and the frame becomes the device's
      full-screen window; otherwise the frame is hidden, given the device's
      default bounds and shown again, and a diagnostic is written when native
      support was requested. Either way the frame ends up visible with the
      screen's bounds, unless it already was the device's full-screen window,
      in which case the native branch leaves it as it is. `warned` tells whether the diagnostic was written. */
  method EnterFullscreenMode(frame: Window, devices: seq<GraphicsDevice>, screenId: int,
                             nativeSupport: bool, osName: string) returns (warned: bool)
    requires 0 <= screenId < |devices|
    modifies frame, devices[screenId], devices[screenId].fullScreenWindow
    ensures !(UsesNativeFullscreen(devices[screenId], nativeSupport, osName) && old(devices[screenId].fullScreenWindow) == frame) ==>
      frame.bounds == devices[screenId].defaultBounds && frame.visible
    ensures var dev := devices[screenId]; var previous := old(dev.fullScreenWindow);
      if UsesNativeFullscreen(dev, nativeSupport, osName) then
        && dev.fullScreenWindow == frame
        && frame.resizable == (if frame.isJFrame then false else old(frame.resizable))
        && (previous == frame ==>
              frame.bounds == old(frame.bounds) && frame.visible == old(frame.visible)
              && dev.windowedModeBounds == old(dev.windowedModeBounds))
        && (previous != frame ==> dev.windowedModeBounds == old(frame.bounds))
        && (previous != null && previous != frame ==>
              && previous.bounds == RestoredBounds(old(dev.windowedModeBounds))
              && previous.visible == old(previous.visible)
              && previous.resizable == old(previous.resizable))
        && !warned
      else
        && dev.fullScreenWindow == previous
        && dev.windowedModeBounds == old(dev.windowedModeBounds)
        && frame.resizable == old(frame.resizable)
        && (previous != null && previous != frame ==>
              && previous.bounds == old(previous.bounds)
              && previous.visible == old(previous.visible)
              && previous.resizable == old(previous.resizable))
        && warned == nativeSupport
  {
    var graphicsDevice := GetGraphicsDevice(devices, screenId);
    warned := false;
    if graphicsDevice.fullScreenSupported && nativeSupport && SysUtil.IsMacOSX(osName) {
      if frame.isJFrame {
        frame.resizable := false;
      }
      graphicsDevice.SetFullScreenWindow(frame);
    } else {
      var bounds := graphicsDevice.defaultBounds;
      frame.visible := false;
      frame.bounds := bounds;
      frame.visible := true;
      if nativeSupport {
        warned := true;
      }
    }
  }

  /** enterFullscreenMode(frame): screen 0 with native support requested. */
  method EnterFullscreenModeDefault(frame: Window, devices: seq<GraphicsDevice>, osName: string)
    returns (warned: bool)
    requires 0 < |devices|
    modifies frame, devices[0], devices[0].fullScreenWindow
    ensures !(UsesNativeFullscreen(devices[0], true, osName) && old(devices[0].fullScreenWindow) == frame) ==>
      frame.bounds == devices[0].defaultBounds && frame.visible
    ensures var dev := devices[0]; var previous := old(dev.fullScreenWindow);
      if UsesNativeFullscreen(dev, true, osName) then
        && dev.fullScreenWindow == frame
        && frame.resizable == (if frame.isJFrame then false else old(frame.resizable))
        && (previous == frame ==>
              frame.bounds == old(frame.bounds) && frame.visible == old(frame.visible)
              && dev.windowedModeBounds == old(dev.windowedModeBounds))
        && (previous != frame ==> dev.windowedModeBounds == old(frame.bounds))
        && (previous != null && previous != frame ==>
              && previous.bounds == RestoredBounds(old(dev.windowedModeBounds))
              && previous.visible == old(previous.visible)
              && previous.resizable == old(previous.resizable))
        && !warned
      else
        && dev.fullScreenWindow == previous
        && dev.windowedModeBounds == old(dev.windowedModeBounds)
        && frame.resizable == old(frame.resizable)
        && (previous != null && previous != frame ==>
              && previous.bounds == old(previous.bounds)
              && previous.visible == old(previous.visible)
              && previous.resizable == old(previous.resizable))
        && warned
  {
    warned := EnterFullscreenMode(frame, devices, 0, true, osName);
  }

  /** leaveFullscreenMode: looks up the frame's screen and indexes the device
      array with the result, so the frame's device must be among `devices`.
      When full-screen mode is supported a JFrame is made resizable again and
      the device's full-screen window is released, which gives that window
      its windowed bounds back; otherwise only a diagnostic is written
      (`warned`). The frame's visibility is not touched. */
  method LeaveFullscreenMode(frame: Window, devices: seq<GraphicsDevice>) returns (warned: bool)
    requires frame.device in devices
    modifies frame, frame.device, frame.device.fullScreenWindow
    ensures frame.visible == old(frame.visible)
    ensures var dev := frame.device; var previous := old(dev.fullScreenWindow);
      if dev.fullScreenSupported then
        && dev.fullScreenWindow == null
        && (previous != null ==> previous.bounds == RestoredBounds(old(dev.windowedModeBounds)))
        && (previous != null && previous != frame ==>
              previous.visible == old(previous.visible) && previous.resizable == old(previous.resizable))
        && (previous != frame ==> frame.bounds == old(frame.bounds))
        && frame.resizable == (if frame.isJFrame then true else old(frame.resizable))
        && !warned
      else
        && dev.fullScreenWindow == previous
        && dev.windowedModeBounds == old(dev.windowedModeBounds)
        && frame.bounds == old(frame.bounds)
        && (previous != null && previous != frame ==>
              && previous.bounds == old(previous.bounds)
              && previous.visible == old(previous.visible)
              && previous.resizable == old(previous.resizable))
        && frame.resizable == old(frame.resizable)
        && warned
  {
    var screenId := GetScreenId(frame, devices);
    var graphicsDevice := GetGraphicsDevice(devices, screenId);
    warned := false;
    if graphicsDevice.fullScreenSupported {
      if frame.isJFrame {
        frame.resizable := true;
      }
      graphicsDevice.SetFullScreenWindow(null);
    } else {
      warned := true;
    }
  }

  /** Entering fullscreen through the fallback branch and leaving it again
      leaves the frame with the screen's bounds, not the ones it had before. */
  method EnterThenLeave(frame: Window, devices: seq<GraphicsDevice>, osName: string)
    requires 0 < |devices| && frame.device == devices[0]
    requires devices[0].fullScreenWindow != frame
    requires !UsesNativeFullscreen(devices[0], true, osName)
    modifies frame, devices[0], devices[0].fullScreenWindow
    ensures frame.bounds == devices[0].defaultBounds && frame.visible
  {
    var _ := EnterFullscreenModeDefault(frame, devices, osName);
    var _ := LeaveFullscreenMode(frame, devices);
  }

  /** Entering native full-screen mode and leaving it again gives the frame
      back the bounds it had before (a zero width or height coming back as 1),
      and releases the screen. */
  method EnterThenLeaveNative(frame: Window, devices: seq<GraphicsDevice>, osName: string)
    requires 0 < |devices| && frame.device == devices[0]
    requires devices[0].fullScreenWindow != frame
    requires UsesNativeFullscreen(devices[0], true, osName)
    modifies frame, devices[0], devices[0].fullScreenWindow
    ensures frame.bounds == RestoredBounds(old(frame.bounds)) && frame.visible
    ensures old(frame.bounds.width) != 0 && old(frame.bounds.height) != 0 ==> frame.bounds == old(frame.bounds)
    ensures devices[0].fullScreenWindow == null
    ensures frame.resizable == (frame.isJFrame || old(frame.resizable))
  {
    var _ := EnterFullscreenModeDefault(frame, devices, osName);
    var _ := LeaveFullscreenMode(frame, devices);
  }
}
