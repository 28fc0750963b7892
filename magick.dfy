/** The interface the comparison consumes from the imaging library and from
    the filesystem. Pixel content is opaque; every pixel-level operation is a
    function value supplied by the caller, so nothing is assumed about it. */
module Magick {
  import opened Types

  /** The pixels of one raster image; never inspected. */
  type Raster(==)

  /** A page image: its geometry and its pixels. */
  datatype Image = Image(width: nat, height: nat, raster: Raster)

  /** One image drawn over a canvas at offset (x, y) with the opacity-aware
      `Atop` operator. */
  datatype Layer = Layer(image: Image, x: int, y: int)

  /** A composed output image: `background` extended to `width` x `height`,
      then each layer drawn over it in order. */
  datatype Canvas = Canvas(background: Image, width: nat, height: nat, layers: seq<Layer>)

  /** The imaging operations, as opaque functions. */
  datatype Backend = Backend(
    /** `first.colorFuzz(fuzz)` followed by the absolute-error metric of
        `first` against `second`. */
    metric: (Image, Image, real) -> real,
    /** The difference image `x.compare(y, AbsoluteErrorMetric, &d)` returns;
        it depends on both images, colour settings included. The third
        argument is the colour fuzz the scoring loop left on the page of the
        first document, which takes part in every such comparison. */
    highlighted: (Image, Image, real) -> Image,
    /** Low-light colour set to transparent and highlight colour to blue. */
    recolored: Image -> Image,
    /** Low-light colour set to transparent, highlight colour unchanged. */
    lowlightCleared: Image -> Image,
    /** A copy of `first` with `second` composed over it by `ChangeMask`; the
        copy carries the colour fuzz (third argument) set on `first`. */
    changeMask: (Image, Image, real) -> Image,
    /** `readImages` at a density: the pages of a readable document, or None
        when the decoder fails. */
    readImages: (Path, string) -> Option<seq<Image>>)

  /** The filesystem queries the comparison makes. */
  datatype FileSystem = FileSystem(
    /** `fs::canonical`: the canonical path, or None when it reports an error. */
    canonical: Path -> Option<Path>,
    /** Whether the path is a directory once `fs::create_directories` has run
        on it. */
    isDirectoryAfterCreate: Path -> bool)
}
