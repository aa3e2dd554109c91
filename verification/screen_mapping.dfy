/**
  The coordinate transform used when highlight boxes are drawn onto a
  screenshot (`retinaValue`, `mobileY`). Only the integer branches are
  modelled: the desktop page is taken at 100% zoom.
 */
module ScreenMapping {

  datatype Platform = Desktop | IOS | Android

  /** What the driver reports about the device under test. */
  datatype Environment = Environment(
    platform: Platform,
    retinaDisplay: bool,   // desktop: high-density display
    chrome: bool,          // desktop: the browser is Chrome
    device: string,        // mobile: the reported device name
    webContext: bool,      // mobile: the Appium context starts with "WEB"
    mobileTopBar: bool)    // setTopBarMobileOffset

  /** iOS devices whose screenshots are taken at twice the logical resolution. */
  const IosRetinaDevices: seq<string> := [
    "iPhone 4", "iPhone 4s",
    "iPhone 5", "iPhone 5s",
    "iPhone 6", "iPhone 6s",
    "iPad Mini 2",
    "iPad Mini 4",
    "iPad Air 2",
    "iPad Pro"
  ]

  /**
    retinaValue at 100% zoom: a logical pixel value mapped to screenshot
    pixels. Only retina Chrome on the desktop and the listed iOS devices
    double it; everything else passes it through.
   */
  function RetinaValue(value: int, env: Environment): (r: int)
    ensures r == value || r == 2 * value
    ensures env.platform == Android ==> r == value
    ensures env.platform == Desktop ==> (r == 2 * value <==> (env.retinaDisplay && env.chrome) || value == 0)
    ensures env.platform == IOS ==> (r == 2 * value <==> env.device in IosRetinaDevices || value == 0)
  {
    match env.platform
    case Desktop => if env.retinaDisplay && env.chrome then 2 * value else value
    case IOS => if env.device in IosRetinaDevices then 2 * value else value
    case Android => value
  }

  /**
    mobileY: the status-bar correction of a vertical coordinate. It adds 20
    only on a mobile platform, in a web context, with the top-bar flag set.
   */
  function MobileY(value: int, env: Environment): (r: int)
    ensures r == value || r == value + 20
    ensures r == value + 20 <==> env.platform != Desktop && env.webContext && env.mobileTopBar
  {
    if env.platform != Desktop && env.webContext && env.mobileTopBar then value + 20 else value
  }

  /**
    The y of a highlight box is corrected for the status bar before the
    density factor: on a listed iPhone with the top bar, y maps to 2y + 40.
   */
  lemma StatusBarBeforeDensity(y: int, env: Environment)
    requires env.platform == IOS && env.device in IosRetinaDevices && env.webContext && env.mobileTopBar
    ensures RetinaValue(MobileY(y, env), env) == 2 * y + 40
  {
  }
}
