# Per-channel image rotation: a Dafny model

This project models the core of a small image-rotation web service, `app.py`. Two parts are modelled:

- **The upload filter `allowed_file`.** A file name is accepted when the text after its last `.`, lower-cased, is one of `png`, `jpg`, `jpeg`, `gif` or `bmp`.
- **The rotation pipeline `rotate_image`.** With no channel angle set, the image is rotated once as a whole by the global angle. Otherwise:
  1. The image is normalised to RGB or RGBA.
  2. It is split into bands.
  3. Each colour band is rotated by its own angle, and the alpha band by the global angle.
  4. Every band is pasted, centred, onto the componentwise-maximum canvas.
  5. The bands are merged.
  6. The composite is rotated once more by the global angle, only when that angle is set and some channel angle differs from it.

Files:

- `wrappers.dfy`: `Option` and `Result`.
- `filenames.dfy`: `AllowedExtensions`, `rsplit(sep, 1)` as `SplitAtLast`, lower-casing, and `AllowedFile` with its properties.
- `planes.dfy`: 8-bit planes (one band, mode "L") and the centred paste.
  - `Centred` is the specification.
  - `ResizeToMax` allocates a zero-filled `array2` and copies the source block into it with two loops. It follows `resize_to_max`, including its shortcut for a plane already at canvas size.
- `images.dfy`: image modes, images, `split()`, `Image.merge` (with its size-mismatch error), and the `Library` of image-library routines that the pipeline calls.
- `rotation.dfy`: the request, the two path conditions, mode normalisation, `rotate_channel`, the canvas, the merged composite, and the `RotateImage` method.

The library routines are not visible: PIL's bicubic `rotate(angle, expand=True)` on a whole image, the same call on a single band, and `convert`. The model takes them as function-valued fields of a `Library` record. `Library.Lawful()` states everything the model assumes about them:

- a conversion gives a well-formed image of the requested mode and the same size;
- a whole-image rotation keeps the mode, and is the identity at angle 0;
- a band rotation gives a well-formed band, and is the identity at angle 0;
- a non-empty band rotated by a non-zero angle is non-empty;
- the size of a rotated band depends only on the input size and the angle.

`Images.LawfulLibraryExists` shows that these laws can all hold together. The non-empty law is what `Rotation.NonEmptyCompositeFromNonEmptyImage` needs.

## Model

| member | source | states |
|---|---|---|
| `Filenames.Lower` | app.py:17 | `.lower()` keeps the length, leaves no upper-case ASCII letter, and changes no other character |
| `Filenames.AllowedFile` | app.py:16-17 | `allowed_file`: an accepted name contains '.', does not end in '.', and has at least three characters after its last '.'; its exact meaning is `Filenames.AllowedFileMeaning` |
| `Filenames.SplitAtLast` | app.py:17 | `rsplit('.', 1)`: no split exactly when the separator is absent; otherwise the name is head + separator + tail, and the tail holds no separator |
| `Filenames.SplitIsUnique` | app.py:17 | any decomposition around a separator with none after it is the one `rsplit` returns |
| `Filenames.AllowedFileMeaning` | app.py:14-17 | a name is accepted exactly when it has a last '.', and the lower-cased text after that position is in the allowed set (both directions) |
| `Filenames.OnlyFinalExtensionCounts` | app.py:17 | for any stem (dots allowed) and any dot-free extension, the name stem + "." + ext is accepted exactly when the lower-cased extension is allowed |
| `Filenames.NoDotRejected` | app.py:17 | a name without '.' is refused |
| `Filenames.TrailingDotRejected` | app.py:17 | a name ending in '.' is refused |
| `Filenames.CaseInsensitive` | app.py:17 | lower-casing the whole name first never changes the verdict |
| `Filenames.UpperCaseExtensionAccepted` | app.py:17 | "a.PNG" is accepted |
| `Filenames.EarlierExtensionIgnored` | app.py:17 | "x.exe.png" is accepted |
| `Filenames.OnlyLastExtensionCounts` | app.py:17 | "a.png.exe" is refused |
| `Filenames.MissingExtensionRejected` | app.py:17 | "archive" and "a." are refused |
| `Planes.Offset` | app.py:71-72 | `(max - size) // 2`: a plane that fits starts inside the canvas, ends inside it, and its left (top) margin equals its right (bottom) margin or is one less; a plane larger than the canvas starts before the origin |
| `Planes.Centred` | app.py:69-73 | the paste onto a zero canvas yields a well-formed plane of exactly the canvas size |
| `Planes.CentredPlacement` | app.py:70-73 | for a plane that fits, both floor-divided offsets are non-negative and source sample (x, y) lands at (x + x offset, y + y offset); every canvas sample outside the pasted block is 0 |
| `Planes.CentredAtOwnSize` | app.py:66-67 | pasting a plane onto a canvas of its own size gives the plane back, so the early return agrees with the paste |
| `Planes.ResizeToMax` | app.py:65-74 | the in-place paste into a fresh zero `array2` yields exactly the centred plane; a plane already at canvas size is returned unchanged |
| `Images.Split` | app.py:38-42 | RGBA yields four bands (alpha present), RGB yields three (no alpha), in the image's band order |
| `Images.Merge` | app.py:85-88 | merging succeeds exactly when there is one band per band of the mode and all bands share one size; the result is that image |
| `Images.MergeSplitRoundTrip` | app.py:38-42 | merging the split bands of an RGB or RGBA image gives the image back |
| `Rotation.SplitsChannels` | app.py:29 | defined as: some channel angle is non-zero, which selects the per-channel path |
| `Rotation.RotatesComposite` | app.py:91 | defined as: the global angle is non-zero and some channel angle differs from it, which triggers the final rotation |
| `Rotation.TargetMode` | app.py:31-35 | the split always sees RGB or RGBA; RGB and RGBA are kept; the result has alpha exactly when the input is RGBA or a palette image |
| `Rotation.Normalised` | app.py:30-35 | the image to split is well formed, has the target mode and the original size, and is the input itself when that was already RGB or RGBA |
| `Rotation.RotateChannel` | app.py:45-50 | the returned size is the returned band's size; the band equals the library's rotation by the angle; at angle 0 it is the input band with its original size |
| `Rotation.Turned` | app.py:52-58 | red, green and blue are rotated by their channel angles; alpha, when present, by the global angle |
| `Rotation.CanvasOf` | app.py:60-62 | the canvas is at least as wide and as tall as every participating size, and each dimension is attained by some size (or is 0) |
| `Rotation.CanvasIsComponentwiseMax` | app.py:61-62 | the canvas equals `max(r, g, b, a if alpha else 0)`, taken separately for widths and heights of the rotated bands |
| `Rotation.ChannelsCanvas` | app.py:61-62 | for any three or four bands, folding `max` over their sizes gives `max(r, g, b, a if alpha else 0)` per dimension |
| `Rotation.Aligned` | app.py:76-82 | after re-padding, every band, alpha included, has exactly the canvas size |
| `Rotation.MergedOnCanvas` | app.py:84-88 | the merge of the re-padded bands cannot fail; it gives an RGBA image when alpha exists, RGB otherwise, of canvas size |
| `Rotation.ResizeAndMerge` | app.py:76-88 | calling `ResizeToMax` on every band and merging yields exactly the merged image on the canvas |
| `Rotation.Composite` | app.py:37-88 | the per-channel composite is a well-formed image of the target mode whose size is the canvas |
| `Rotation.CompositeBands` | app.py:76-88 | the composite's bands are the rotated bands, each re-padded onto the canvas, in split order |
| `Rotation.AlphaFollowsGlobalAngle` | app.py:57-58 | for an RGBA or palette input, the composite's fourth band is the alpha band rotated by the global angle and re-padded |
| `Rotation.UnrotatedChannelOnlyRepadded` | app.py:45-55 | a colour band whose angle is 0 is not resampled; it reaches the composite as the normalised image's band, only re-padded |
| `Rotation.NonEmptyCompositeFromNonEmptyImage` | app.py:45-62 | a non-empty image yields a composite of non-zero width and height |
| `Rotation.EqualAnglesNeedNoPadding` | app.py:53-67 | if all bands turn by one angle, the canvas is the rotated bands' common size and the composite's bands are the rotated bands themselves |
| `Rotation.RotateImage` | app.py:19-97 | with no channel angle set: one whole-image rotation by the global angle, mode kept, and the image itself at global angle 0. With a channel angle set: the result has the target mode; it is the composite rotated by the global angle when that angle is set and some channel angle differs from it, and the composite itself otherwise |

## Left out

- **Web and file layer** (app.py:144-220). Left out: the Flask routes `index` and `upload`, `create_directories`, `secure_filename`, the upload folder and `file.save`. Also left out: `Image.open`, saving the result and rendering templates. All of this is web and file-system plumbing.
- **Output file name** (app.py:176-179). Quirk: form values are strings compared with the integer `0`, so a submitted "0" still counts as a channel angle there.
- **`create_color_histogram`** (app.py:101-142). Binning and density are computed inside matplotlib's `hist`, and the RGBA flattening relies on PIL's masked paste; neither is visible. The output is a base64-encoded PNG.
- **Angle parsing** (app.py:23-26). `float(x) if x else 0` is not modelled. The request carries the angles as reals, with an absent or empty value already 0. Floating-point rounding and NaN are not modelled.
- **Exception re-wrapping** (app.py:98-99). The only failure the model has is `Image.merge`'s, and it is proved unreachable. File and library errors are outside the model.
- **PIL internals.** Bicubic resampling, the expanded bounding box and the pixel arithmetic of `convert` are abstract, as `Library` fields constrained only by `Library.Lawful()`. So nothing is proved about rotated pixel values or exact rotated sizes.
- **Palettes.** The palette of a "P" image is not modelled, only which mode it is converted to.
- **32-bit modes.** "I", "F" and "I;16" are not in `Mode`, because bands are 8-bit. In the source they take the convert-to-RGB branch (app.py:35), like every other mode that is not P, RGB or RGBA.
- **Object identity.** Images are values. `resize_to_max` returning the same object is modelled as returning an equal plane; object identity and aliasing are not modelled.
- `Filenames.Lower`: `str.lower()` is modelled on ASCII letters only. This changes no verdict. The only non-ASCII characters that Python lower-cases into ASCII are KELVIN SIGN (to "k") and U+0130 (to "i" followed by a combining dot), and neither can complete an allowed extension.

## Behaviour worth knowing

- **Alpha band.** On the per-channel path the alpha band is always rotated by the global angle (app.py:57-58), whatever the channel angles are. `Rotation.AlphaFollowsGlobalAngle` states this.
- **Alpha lost for "LA" and "PA".** Every mode other than P, RGB and RGBA is converted to RGB before the split (app.py:35). So an image with a grey or palette band plus alpha loses its alpha on the per-channel path.
- **The merge never fails.** `Image.merge` refuses bands of different sizes (app.py:85-88), modelled as `Images.Merge`'s `SizeMismatch` result. `Rotation.MergedOnCanvas` proves the re-padded bands always merge.
