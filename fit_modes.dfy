/**
 * The values of the crop tool's `fitMode` and `background` settings.  The controls
 * (src/tools/Controls.jsx) and both preset tables only ever produce the strings
 * "fill" and "fit", and "black", "white" and "blur"; the drawing code tests for
 * "fit" and treats every other mode as "fill".
 */
module FitModes {

  /** "fill" (cover the canvas) or "fit" (show the whole picture). */
  datatype FitMode = Fill | Fit

  /** What a "fit" canvas shows around the picture: "black", "white" or "blur". */
  datatype Background = Black | White | Blur
}
