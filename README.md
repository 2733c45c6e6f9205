# wa-texturizer in Dafny

wa-texturizer turns a flat-coloured map drawing into a Worms: Armageddon
terrain. Every pixel of the drawing that has the mask colour is painted:
- a grass-bottom strip goes under each masked run;
- a grass-top strip goes over each masked run;
- the tiled terrain texture goes in between.

The result can be exported as an indexed PNG. Its colour table then starts
with the background colour and lists each non-mask colour of the drawing
once. A 41-byte `waLV` chunk in the PNG tells the game which soil texture to
use.

This project models that core and proves what it computes. It covers three
versions of `texturize`:
- **the later one** (`src/image-processing.ts`): padding, palette, RGB-only
  colour comparison, and an unchecked transparent background;
- **the earlier one** (`pages/image-processing.ts`): the same passes and
  padding, four-channel comparison, and a de-duplicating background;
- **the original one** (`pages/index.tsx`): no padding and no palette.

Modules, one per file:

- `Wrappers` (wrappers.dfy): `Option` and `Result`.
- `Colors` (colors.dfy): the RGBA colour.
  - `closeToBlack`.
  - The two `colorEqual` comparisons, including the nullable one of the earlier versions.
  - `hexToRgb`, with a formatting function as its inverse.
- `Pixels` (pixels.dfy): `Raster`, an image as a value.
  - `ImageData`, a class over an `array` that the canvas code updates in place.
  - `getPixel`, `setPixel`, `getPixelRow`, `setPixelRow`.
  - The byte layout (`4 * (y * width + x)`).
  - `getImageData` on a region and the row crop.
- `Palette` (palette.dfy): `checkAndAddToColorPalette` and `setFirstColorInPalette`.
  - Each is a specification function (`AddIfAbsent`, `PlaceFirst`).
  - Each is also a method of the `ColorPalette` class that changes the table in place.
- `Compositor` (compositor.dfy): what the two passes compute.
  - `Scene` is everything the passes read.
  - `RunBelow`/`RunAbove` count the masked pixels under and over a pixel; `BelowCounter` is the `below` counter.
  - `DownPixel`, `TopPixel`, `Composited` and `Render` give each pixel's result.
  - The palette's scan order is `KeptColors`/`ImageScan`.
  - The loops are `BottomPass`, `TopPass`, `ColumnPass` and `Composite`, proved against those functions.
  - Also here: the grass-offset loops.
- `Texturing` (texturing.dfy): the pipeline around the passes.
  - The canvas the source is drawn on.
  - The padding of the copy the passes read (`Pad` against `Padded`).
  - The two grass strips and their offsets, and the final crop.
  - `FinalImage` is the whole image, as a function.
  - The properties of the image are proved here.
- `Texturizer` (texturizer.dfy): the later `texturize`, with its error cases and the palette it returns.
- `EarlierTexturizer` (earlier.dfy): the earlier `texturize`.
- `OriginalTexturizer` (original.dfy): the original `texturize`.
- `Versions` (versions.dfy): on opaque images the RGB-only and the four-channel comparison give the same image.
- `TerrainPalette` (terrain.dfy): `generateTerrainTexturesPalette`.
- `Dimensions` (dimensions.dfy): `findNextValidDimension` and the size arithmetic of `resize`.
- `Walv` (walv.dfy): `composeWalvChunk` as a little-endian record encoding, and the splice of the chunk into the chunk list.

### Inputs and outputs

The images are inputs:
- the drawing, as a `Raster`;
- the texture;
- the combined grass image.

`texturize` returns `Result<Output, TexturizeError>`:
- `Output` holds the final image, which is what the canvas shows, and the returned palette.
- The three `TexturizeError` cases are the exceptions the JavaScript raises, in the order the code meets them:
  - `EmptyImage`: `getImageData` throws an `IndexSizeError` on a rectangle with no width or no height. The set-up reads the drawing, the texture and the grass image this way, so an empty one fails before anything changes. The crop back to the source's rows reads one more such rectangle, so a padded source with no rows fails there too, after the scans.
  - `BackgroundColorUnparsable`: a background string that does not parse is a TypeError while the palette is prepared.
  - `MaskColorUnparsable`: a mask string that does not parse is a TypeError at the first comparison of the scans.

The terrain's pre-computed palette is shared by every call. The source updates it in place, so it is a `ColorPalette` object that `texturize` modifies.

### How the passes are stated

The two passes are loops that write the output buffer pixel by pixel. Each
loop is proved to leave exactly `Render(s, before)` in the buffer.
`Composited(s, x, y, prev)` is `TopPixel` applied after `DownPixel`, where
`prev` is the value before the passes. The lemmas about what a pixel becomes
are stated on these functions:
- which grass row it takes;
- when it takes the texture;
- that non-mask pixels are untouched.

The model's grass offsets are parameters of `SceneOf` and `FinalImage`, so
those lemmas hold for any offsets. `texturize` uses the measured ones,
`TopOffset` and `BottomOffset`.

### Where the code decides

The model follows the code in these places:
- The grass image's columns 0–63 are the grass-**top** strip and columns 64–127 the grass-**bottom** strip.
- A grass offset can equal the strip's height when the whole strip is close to black. It is not always smaller than the height.
- `newImageData` is the canvas before padding, so its padding rows are transparent. Only `imageData`, the copy the passes read, is padded.
- An empty texture never reaches the passes: reading it with `getImageData` throws, and `texturize` returns `EmptyImage`. The model's `DownPixel` keeps the previous pixel when the texture is empty only so that it is defined on every scene.
- A padded source of height 0 gets past the set-up. The padding copies then move empty rows and change nothing, and `Pad` skips them. The palette is prepared and extended by the scans, and the call then fails at the crop with `EmptyImage`.
- `convertOutputToIndexedPng` splices the `waLV` chunk in at index 1, right after the header chunk. A comment beside the splice says "3rd chunk".

## Model

| member | source | states |
|---|---|---|
| Colors.CloseToBlackIgnoresAlpha | src/image-processing.ts:378-380 | closeToBlack holds exactly when red, green and blue are each below 40; changing alpha never changes it |
| Colors.MatchesIsEquivalence | src/image-processing.ts:374-376 | the RGB-only and the four-channel comparison are both equivalence relations; four-channel equality is equality of colours and implies RGB equality |
| Colors.ColorEqualNullable | pages/image-processing.ts:335-341 | colorEqual with nulls: a null first argument compares equal to anything; a present colour against null throws; two present colours are equal exactly when all four channels are (pages/index.tsx has the same function) |
| Colors.HexToRgb | src/image-processing.ts:328-336 | a colour exactly for strings that are six hex digits (either case) after an optional '#'; its red, green and blue are the three digit pairs and its alpha is 255; null for every other string |
| Colors.HexRoundTrip | pages/image-processing.ts:285-293 | parsing the `#rrggbb` form of a colour, with or without the '#', gives back that colour made opaque |
| Pixels.IdxInjective | src/image-processing.ts:339-348 | two in-range pixels at the same index `y * width + x` are the same pixel |
| Pixels.IdxFormula | src/image-processing.ts:343 | the pixel index is `y * width + x` |
| Pixels.ImageData.GetPixel | src/image-processing.ts:339-348 | getPixel returns the colour stored for (x, y) in the current buffer |
| Pixels.GetPixelBytes | pages/index.tsx:60-69 | in the byte view of the buffer, channel k of pixel (x, y) is at offset `4 * (y * width + x) + k` |
| Pixels.SetPixelBytes | pages/index.tsx:72-75 | writing pixel i changes exactly the bytes 4i .. 4i + 3, to the channels of the new colour |
| Pixels.ImageData.SetPixel | src/image-processing.ts:351-354 | after setPixel(x, y, c), getPixel(x, y) is c and every other pixel is as before |
| Pixels.ImageData.GetPixelRow | src/image-processing.ts:356-360 | getPixelRow(y) lists the pixels of row y from left to right |
| Pixels.ImageData.SetRow | src/image-processing.ts:370 | one `data.set(row, y * rowLength)` makes row y equal `row` and leaves all other rows alone |
| Pixels.ImageData.SetPixelRow | src/image-processing.ts:362-372 | rows y .. y + n - 1 all become `row`, every other row is untouched |
| Pixels.RegionAt | src/image-processing.ts:57-83 | getImageData on a rectangle returns the image's pixels inside it and transparent black outside |
| Pixels.CropRowsAt | src/image-processing.ts:316-326 | the cropped image's pixel (x, y) is the uncropped pixel (x, y + heightOffset) |
| Pixels.FillRowsAt | src/image-processing.ts:362-372 | after filling, rows y0 .. y0 + n - 1 hold the row and the others are unchanged |
| Palette.AddIfAbsent | src/image-processing.ts:402-410 | the colour is appended exactly when no entry matches it; the existing entries stay, in order; afterwards the colour is matched |
| Palette.AddIfAbsentKeepsDistinct | src/image-processing.ts:402-410 | adding to a palette without two matching entries keeps it so |
| Palette.AddIfAbsentIdempotent | src/image-processing.ts:402-410 | adding the same colour twice is adding it once |
| Palette.ColorPalette.CheckAndAdd | src/image-processing.ts:402-410 | the loop and push leave the palette as AddIfAbsent of the old palette |
| Palette.AddAllFacts | src/image-processing.ts:444-459 | after adding a list of colours every one of them is matched, every new entry is one of them, and a duplicate-free palette is still duplicate-free |
| Palette.AddAllAppend | src/image-processing.ts:449-456 | adding a list in two parts, one after the other, is adding it at once |
| Palette.FirstMatch | src/image-processing.ts:392-398 | the index the source's loop stops at: the first entry matching the colour, or none when no entry matches |
| Palette.RemoveAt | src/image-processing.ts:395 | `splice(i, 1)` drops entry i and shifts the later entries down by one |
| Palette.PlaceFirst | src/image-processing.ts:382-400 | index 0 matches the colour afterwards; with skipCheck the colour is prepended; without it nothing changes when entry 0 matches, the colour is prepended when nothing matches, and otherwise the FIRST matching entry i > 0 is taken out and the colour put in front with the other entries in their order (`[c] + p[..i] + p[i+1..]`); the length grows only when nothing matched, every entry not matching the colour is kept, and no other colour is introduced |
| Palette.PrependDistinct | src/image-processing.ts:399 | putting a colour in front of a duplicate-free palette keeps it duplicate-free exactly when no entry matches the colour |
| Palette.PlaceFirstKeepsDistinct | src/image-processing.ts:391-399 | without skipCheck a duplicate-free palette stays duplicate-free |
| Palette.PlaceFirstSkipDistinct | src/image-processing.ts:387-390 | with skipCheck a duplicate-free palette stays duplicate-free exactly when it had no entry matching the colour |
| Palette.PlaceFirstIdempotent | src/image-processing.ts:391-399 | without skipCheck, placing the same colour first twice is placing it once |
| Palette.PlaceFirstSkipRepeats | src/image-processing.ts:387-390 | with skipCheck, two calls with the same colour leave it at index 0 and 1, and the palette has a duplicate |
| Palette.ColorPalette.SetFirst | src/image-processing.ts:382-400 | the unshift, or the loop, splice and unshift, leave the palette as PlaceFirst of the old palette (the earlier two-argument version in pages/image-processing.ts is this with skipCheck false) |
| Dimensions.FindNextValidDimension | src/image-processing.ts:412-417 | the result is the least multiple of 8 that is at least n; it is below n + 8 and is n when n is a multiple of 8 |
| Dimensions.ResizeDimensions | src/image-processing.ts:231-256 | each side stays at its minimum (640 wide, 32 high) when the image does not exceed it and is otherwise rounded up to a multiple of 8 below size + 8; the image is moved down by the added height |
| Walv.FromLEOfLE | src/image-processing.ts:425-436 | reading back n little-endian bytes of a value below 256^n gives the value |
| Walv.LEOfFromLE | src/image-processing.ts:425-436 | every byte string is the little-endian form of the number it reads as |
| Walv.DecodeEncode | src/image-processing.ts:420-442 | decoding an encoded level record gives the record back |
| Walv.EncodeDecode | src/image-processing.ts:420-442 | every 41-byte string is the encoding of the record it decodes to |
| Walv.WalvLevel | src/image-processing.ts:421-434 | the record composeWalvChunk writes has the terrain byte as soil texture index and version 1 |
| Walv.WalvLayout | src/image-processing.ts:420-442 | the chunk's bytes: 16 is 1, 20 is 85, 24 is 30, 32 is the terrain byte, 34 is 1, every other byte is 0 |
| Walv.Overwrite | src/image-processing.ts:425-435 | `Uint8Array.set(values, offset)` replaces the bytes from offset on by the values and keeps the rest |
| Walv.SetBytes | src/image-processing.ts:425-435 | the array afterwards is Overwrite of its old contents |
| Walv.ComposeWalvChunk | src/image-processing.ts:420-442 | the chunk has type "waLV", length 41 and 41 data bytes that encode the level record; decoding them gives back the terrain byte (`terrainIndex || 0` narrowed to 8 bits) |
| Walv.InsertAt | src/image-processing.ts:278 | `splice(i, 0, c)` puts c at index i (or at the end when i is past it) and shifts the rest up |
| Walv.InsertAtRemove | src/image-processing.ts:278 | taking the inserted chunk out again gives the original list |
| Walv.InsertWalvChunk | src/image-processing.ts:278 | the waLV chunk lands right after the first chunk, and every other chunk keeps its order |
| TerrainPalette.ColumnPixels | src/image-processing.ts:452-454 | the first n pixels of column x, top to bottom, in the order the innermost loop visits them |
| TerrainPalette.ImagePixelsCover | src/image-processing.ts:451-455 | the column-by-column listing of an image holds every pixel of it and nothing else |
| TerrainPalette.AllPixelsCover | src/image-processing.ts:449-456 | the listing of all images holds every pixel of every image and only their pixels |
| TerrainPalette.GenerateTerrainTexturesPalette | src/image-processing.ts:444-459 | the result is the palette [bgColor] with every pixel added in the loops' order (image, column, row); it starts with bgColor, has no two RGB-equal entries and matches every pixel of every image |
| TerrainPalette.AddTextures | src/image-processing.ts:449-457 | the loop over the images adds their pixels in order |
| TerrainPalette.AddTexture | src/image-processing.ts:451-456 | the loop over the columns of an image adds its pixels column by column |
| TerrainPalette.AddColumn | src/image-processing.ts:452-455 | the loop over a column adds its pixels top to bottom |
| TerrainPalette.GeneratedPalette | src/image-processing.ts:444-459 | the generated palette starts with bgColor, has no two RGB-equal entries, matches every pixel of every image, and its other entries are pixels of the images |
| Compositor.LeadingBlack | src/image-processing.ts:88-94 | the number of consecutive close-to-black rows in column 0 from a row downwards, stopping at the first other row |
| Compositor.TrailingBlack | src/image-processing.ts:96-102 | the same count from the last row upwards |
| Compositor.GrassTopOffset | src/image-processing.ts:88-94 | the loop computes LeadingBlack from row 0, a value between 0 and the strip height |
| Compositor.GrassBottomOffset | src/image-processing.ts:96-102 | the loop computes TrailingBlack from the last row, a value between 0 and the strip height |
| Compositor.RunBelow | src/image-processing.ts:153-190 | the length of the masked run directly under a pixel: all those pixels are masked and the next one is not, or the column ends |
| Compositor.RunAbove | src/image-processing.ts:196-220 | the length of the masked run directly over a pixel, bounded by the top edge |
| Compositor.BelowCounterIsDepth | src/image-processing.ts:151-187 | `below` when the scan reaches a pixel is `grassHeight - grassBottomOffset - 1` minus the masked pixels under it, so the row it samples is always below grassHeight |
| Compositor.DownPixel | src/image-processing.ts:155-184 | a non-mask pixel is left as it was; a masked one becomes a grass-bottom or texture sample, or stays (empty texture) |
| Compositor.TopPixel | src/image-processing.ts:198-212 | a non-mask pixel is left as it was; a masked one becomes a grass-top sample or stays |
| Compositor.Composited | src/image-processing.ts:149-221 | after both passes a non-mask pixel is unchanged, and every pixel is what it was, a grass pixel or a texture pixel |
| Compositor.RunBelowIs | src/image-processing.ts:153-187 | a run of exactly k masked pixels under a pixel makes RunBelow k |
| Compositor.RunAboveIs | src/image-processing.ts:196-215 | a run of exactly k masked pixels over a pixel makes RunAbove k |
| Compositor.GrassBottomAtDepth | src/image-processing.ts:151-184 | a masked pixel with k masked pixels under it samples grass-bottom row `grassHeight - grassBottomOffset - 1 - k` (which is inside the strip) and takes it when it is not close to black |
| Compositor.TextureBelowGrass | src/image-processing.ts:159-176 | a masked pixel with more than `grassHeight - grassBottomOffset - 1` masked pixels under it takes the tiled texture at (x mod tw, y mod th), for a non-empty texture |
| Compositor.GrassTopAtDepth | src/image-processing.ts:196-212 | a masked pixel with k < grassHeight - grassTopOffset masked pixels over it ends as grass-top row k + grassTopOffset (inside the strip) unless that sample is close to black, in which case the downward pass's value stays |
| Compositor.TextureInside | src/image-processing.ts:149-221 | deep inside a masked area, past both grass strips, the result is the tiled texture |
| Compositor.BlackGrassDrawsTexture | src/image-processing.ts:164-214 | with grass strips that are close to black everywhere, every masked pixel takes the tiled texture |
| Compositor.KeptColors | src/image-processing.ts:185-190 | the non-mask colours of a column, in the order the downward pass offers them to the palette; none matches the mask and every non-mask pixel is among them |
| Compositor.ImageScan | src/image-processing.ts:149-190 | the non-mask colours of the columns scanned so far, column by column, with the same two properties |
| Compositor.PaletteAfterScans | src/image-processing.ts:185-190 | after the passes the old palette is a prefix, every non-mask source colour is matched, new entries never match the mask and a duplicate-free palette stays so |
| Compositor.BottomPass | src/image-processing.ts:151-190 | the downward pass changes only column x, each pixel of it to DownPixel, and adds the column's non-mask colours to the palette in scan order |
| Compositor.DrawBelow | src/image-processing.ts:155-184 | the masked step of the downward pass writes DownPixel into (x, y) and nothing else |
| Compositor.TopPass | src/image-processing.ts:194-220 | the upward pass changes only column x, each pixel of it to TopPixel |
| Compositor.DrawAbove | src/image-processing.ts:198-212 | the masked step of the upward pass writes TopPixel into (x, y) and nothing else |
| Compositor.ColumnPass | src/image-processing.ts:149-221 | one iteration of the column loop applies both passes to column x |
| Compositor.Composite | src/image-processing.ts:149-221 | the column loop leaves Render of the old buffer in the buffer and the palette extended by ImageScan |
| Texturing.ShiftedAt | src/image-processing.ts:50-52 | drawImage at row heightOffset shows source row y - heightOffset on canvas rows heightOffset .. heightOffset + height - 1 and transparent black elsewhere |
| Texturing.CanvasSourceRow | src/image-processing.ts:43-59 | the canvas is renderHeight rows high and shows source row y at row y + heightOffset |
| Texturing.PadRow | src/image-processing.ts:104-115 | the source row a padded row copies; inside the source it is the row itself |
| Texturing.PaddedRows | src/image-processing.ts:104-115 | with the upper border padded rows 0 .. 63 equal row heightOffset, with the lower border padded the rows from originalHeight + heightOffset on equal the row above them, and the rows between are the source |
| Texturing.PaddedSourceRow | src/image-processing.ts:104-115 | the padded copy shows source row y at row y + heightOffset |
| Texturing.Pad | src/image-processing.ts:104-115 | the two getPixelRow/setPixelRow copies turn the drawn canvas into Padded (the earlier version has the same padding code) |
| Texturing.Strip | src/image-processing.ts:70-83 | each grass strip is the 64-pixel-wide region of the grass image at column 0 (top) or 64 (bottom), full height |
| Texturing.TopOffset | src/image-processing.ts:87-94 | the number of leading close-to-black rows of the grass-top strip, at most its height, with the first non-black row right after (the earlier and original versions have the same loop) |
| Texturing.BottomOffset | src/image-processing.ts:96-102 | the number of trailing close-to-black rows of the grass-bottom strip, at most its height (the earlier and original versions have the same loop) |
| Texturing.SceneOf | src/image-processing.ts:41-115 | what the passes read: the padded source, the texture, both strips and offsets, the mask and the comparison |
| Texturing.FinishAt | src/image-processing.ts:223-226 | after the crop, final pixel (x, y) is pixel (x, y + heightOffset) of the composited canvas; without padding there is no crop (the earlier version crops inline, the same way) |
| Texturing.FinalImage | src/image-processing.ts:27-229 | the image texturize leaves on the canvas has exactly the source's width and height |
| Texturing.FinalImageAt | src/image-processing.ts:149-226 | a final pixel is the composited pixel of the padded row it came from, over the source pixel drawn there |
| Texturing.NonMaskPixelsKept | src/image-processing.ts:149-221 | a source pixel that does not match the mask colour is in the final image unchanged |
| Texturing.FinalPixelOrigin | src/image-processing.ts:149-221 | every final pixel is its source pixel, a grass-top pixel, a grass-bottom pixel or a texture pixel |
| Texturing.BlackStrip | src/image-processing.ts:70-83 | a strip cut from an all-black grass image is all black |
| Texturing.BlackGrassShowsTexture | src/image-processing.ts:149-221 | with an all-black grass image, every masked source pixel ends up as the texture tiled at the row the passes see it on |
| Texturing.NoGrassTopAtUpperBorder | src/image-processing.ts:104-108 | with the upper border padded (and grass at most 64 rows high), a masked run starting at the top edge gets no grass-top |
| Texturing.NoGrassBottomAtLowerBorder | src/image-processing.ts:110-115 | with the lower border padded (and grass at most 64 rows high), a masked run reaching the bottom edge gets the texture from the downward pass, never grass-bottom (the upward pass may still paint grass-top over it) |
| Texturing.MaskedToBottom | src/image-processing.ts:151-184 | a masked run longer than the grass that reaches the last row starts with texture |
| Texturizer.TexturizeScene | src/image-processing.ts:41-115 | the scene the later version scans: the padded source with RGB-only comparison |
| Texturizer.SetUp | src/image-processing.ts:41-115 | for a non-empty canvas and grass image (the call returns EmptyImage otherwise), the set-up yields a transparent canvas with the source drawn at heightOffset, a padded copy of it, both strips and their measured offsets |
| Texturizer.PreparePalette | src/image-processing.ts:117-128 | a transparent background is prepended unchecked; a parsable background colour is placed first through the de-duplicating path; an unparsable one fails and leaves the palette alone |
| Texturizer.Texturize | src/image-processing.ts:27-229 | fails exactly when a getImageData rectangle is empty (source width, padded height, texture or grass height 0), the background is wanted but does not parse, the mask does not parse, or a padded source has no rows; the errors come in that order, the first two leave the palette untouched, a bad mask leaves it prepared, and a failed crop leaves it prepared and extended by the scans; otherwise returns FinalImage, and the palette (when wanted) is the prepared palette plus the non-mask colours in scan order; without convertOutput the terrain palette is untouched and [] is returned |
| Texturizer.ScanAndCrop | src/image-processing.ts:148-226 | the scans leave `Render` of the scene in the buffer and, when a palette is wanted, extend it by the non-mask colours in scan order (otherwise it is untouched); the crop fails with EmptyImage exactly when a border is padded and the source has no rows, and otherwise the output is the rendered canvas cut back to the source's rows |
| Texturizer.TexturizedPaletteStart | src/image-processing.ts:117-128 | the returned palette starts with the background colour (transparent black itself when transparent), keeps the prepared palette as prefix, keeps every seed entry not replaced, adds only non-mask colours and is duplicate-free when the seed is and transparency is not a second copy |
| Texturizer.TexturizedPaletteCovers | src/image-processing.ts:185-190 | every non-mask source colour has an RGB-equal entry in the returned palette |
| Texturizer.RepeatedTransparentCalls | src/image-processing.ts:123-124 | two calls with a transparent background on the shared palette leave transparent black at index 0 and 1: the palette is no longer duplicate-free |
| EarlierTexturizer.TexturizeScene | pages/image-processing.ts:28-103 | the scene the earlier version scans: the padded source with four-channel comparison |
| EarlierTexturizer.PreparePalette | pages/image-processing.ts:105-115 | the background colour, transparent black included, is placed first through the de-duplicating path; a null background leaves a non-empty palette as it is, because colorEqual(null, _) holds at index 0 |
| EarlierTexturizer.Texturize | pages/image-processing.ts:15-205 | fails exactly when a getImageData rectangle is empty, the background is null and the palette empty, the mask does not parse, or a padded source has no rows, in that order and with the palette left as in the later version; otherwise returns FinalImage with four-channel comparison and the prepared palette plus the non-mask colours |
| EarlierTexturizer.TexturizedPaletteStart | pages/image-processing.ts:107-115 | the returned palette starts with the background colour itself, keeps every seed entry, adds only non-mask colours, and is duplicate-free whenever the seed is |
| EarlierTexturizer.TexturizedPaletteCovers | pages/image-processing.ts:155-158 | every non-mask source colour is itself an entry of the returned palette |
| EarlierTexturizer.RepeatedTransparentCalls | pages/image-processing.ts:348-357 | repeated calls with a transparent background keep a duplicate-free palette duplicate-free, with transparent black the first and only transparent entry |
| OriginalTexturizer.UnpaddedIsSource | pages/index.tsx:115-134 | without padding, the drawn canvas and the copy the passes read are the source itself |
| OriginalTexturizer.Texturize | pages/index.tsx:108-253 | fails with EmptyImage exactly when the source, the texture or the grass image has an empty getImageData rectangle, and otherwise with MaskColorUnparsable exactly when the mask is null; on success the canvas shows FinalImage of the unpadded source with four-channel comparison and the measured offsets |
| Versions.RunBelowSame | src/image-processing.ts:153-187 | scenes that differ only in the comparison but agree on which pixels are masked have the same runs and `below` counters |
| Versions.RenderSame | src/image-processing.ts:149-221 | such scenes paint the same image |
| Versions.OpaqueVersionsAgree | pages/image-processing.ts:335-341 | on an opaque source with an opaque mask, the four-channel comparison of the earlier versions and the RGB-only one of the later version give the same final image, with or without padding |

## Left out

- Canvas and DOM calls (`getContext`, `drawImage`, `getImageData`, `putImageData`, `toBlob`, `fillRect`). Their effect on pixels is modelled as values (`Region`, `Shifted`, `CropRows`); the browser API is not.
- PNG decoding and encoding, and chunk parsing and serialisation, including the chunk CRC. These are foreign libraries. Only the splice of the `waLV` chunk is modelled.
- The Promise, Blob and URL handling of `convertOutputToIndexedPng`. It is asynchronous I/O.
- The `_.memoize` canvas cache. It is a cache keyed on DOM objects and does not change results.
- The pre-computed terrain palettes. The seed palette is an input.
- The `printPureTerrainColorPalette` branch of the later `texturize`. It only logs.
- `resize`'s fill style and its horizontal offset `(width - originalWidth) / 2`, which can be fractional. Only the chosen width, height and vertical offset are modelled.
- The React page, `useQueryParam`, `loadImages`, the palette page, the debounced hooks, and `convertMsToTime` (floating-point time formatting).
- Texturizer.Texturize: treats an unparsable background with an empty seed palette as an immediate failure.
  - The source instead puts `null` in the palette and fails only at the first non-mask pixel.
  - When there is no non-mask pixel, the source returns `[null]`, which a palette of colours cannot hold.
- EarlierTexturizer.Texturize: the same simplification for a null background with an empty seed palette.
- Texturizer.Texturize: does not describe the canvas left behind by a call that throws. It returns only the error.
- EarlierTexturizer.Texturize: the same omission for a call that throws.
- OriginalTexturizer.Texturize: the same omission for a call that throws.
- Compositor.Composite: the scans read the padded copy as a value.
  - This is sound because the passes never write to that copy. They write only to `newImageData`.
- The canvas channels are bytes in the source and `Byte` values here. The browser's premultiplied-alpha rounding of `putImageData`/`getImageData` is not modelled.
- The terrain index given to `composeWalvChunk` is modelled as an optional integer.
  - A fractional index is not modelled.
  - `NaN` and missing indices become the `None` case, which stores 0.
- The `TexturizeError` cases stand for the IndexSizeError and the TypeErrors the JavaScript raises. The model does not distinguish the exact messages.
