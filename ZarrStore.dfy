/** The chunked array store ZarrWriter writes into, as an abstract value: a shape
    whose leading dimensions are the run's axes and whose last two are the frame
    shape, one frame per leading coordinate (unwritten cells read as the fill
    value 0), and the store's attributes. */
module ZarrStore {
  import opened Wrappers
  import opened Acquisition

  /** The two ways an assignment `z[coord] = img` fails: IndexError for a
      coordinate with too many entries or one out of range, ValueError for a value
      whose shape is not that of the selected block. */
  datatype StoreError = IndexOutOfBounds | ShapeMismatch

  datatype ZarrArray = ZarrArray(
    leading: seq<nat>,
    frameHeight: nat,
    frameWidth: nat,
    dtype: string,
    written: map<seq<nat>, Frame>,
    attrs: map<string, string>)

  function Shape(z: ZarrArray): seq<nat> {
    z.leading + [z.frameHeight, z.frameWidth]
  }

  /** A frame of the given shape at the fill value. */
  function FillFrame(height: nat, width: nat): Frame {
    Frame(height, width, seq(height * width, _ => 0))
  }

  /** The frame stored at a leading coordinate. */
  function Cell(z: ZarrArray, c: seq<nat>): Frame {
    if c in z.written then z.written[c] else FillFrame(z.frameHeight, z.frameWidth)
  }

  /** `zarr.open(path, mode="w", shape=leading + frame shape, dtype=dtype)`: a new
      store of that shape with every cell at the fill value and no attributes. */
  function Open(leading: seq<nat>, frameHeight: nat, frameWidth: nat, dtype: string): (z: ZarrArray)
    ensures Shape(z) == leading + [frameHeight, frameWidth] && |z.leading| == |leading|
    ensures z.dtype == dtype && z.attrs == map[]
    ensures forall c :: Cell(z, c) == FillFrame(frameHeight, frameWidth)
  {
    ZarrArray(leading, frameHeight, frameWidth, dtype, map[], map[])
  }

  /** `z.attrs[key] = value`. */
  function SetAttr(z: ZarrArray, key: string, value: string): (r: ZarrArray)
    ensures Shape(r) == Shape(z) && r.dtype == z.dtype
    ensures forall c :: Cell(r, c) == Cell(z, c)
    ensures r.attrs.Keys == z.attrs.Keys + {key} && r.attrs[key] == value
    ensures forall k :: k in z.attrs && k != key ==> r.attrs[k] == z.attrs[k]
  {
    z.(attrs := z.attrs[key := value])
  }

  /** Integer indexing: at most one index per dimension, each below its size. */
  predicate InBounds(coord: seq<nat>, shape: seq<nat>) {
    |coord| <= |shape| && forall k :: 0 <= k < |coord| ==> coord[k] < shape[k]
  }

  /** `z[coord] = img`: the store checks the coordinate first, then requires the
      value's shape to be the shape of the selected block (no broadcasting). */
  function SetSlice(z: ZarrArray, coord: seq<nat>, img: Frame): (r: Result<ZarrArray, StoreError>)
    ensures r.Failure? && r.error == IndexOutOfBounds <==> !InBounds(coord, Shape(z))
    ensures r.Success? <==> InBounds(coord, Shape(z)) && [img.height, img.width] == Shape(z)[|coord|..]
    ensures r.Success? <==>
              && |coord| == |z.leading|
              && (forall k :: 0 <= k < |coord| ==> coord[k] < z.leading[k])
              && img.height == z.frameHeight && img.width == z.frameWidth
    ensures r.Success? ==>
              && Shape(r.value) == Shape(z) && r.value.dtype == z.dtype && r.value.attrs == z.attrs
              && Cell(r.value, coord) == img
              && forall c :: c != coord ==> Cell(r.value, c) == Cell(z, c)
  {
    if !InBounds(coord, Shape(z)) then Failure(IndexOutOfBounds)
    else if [img.height, img.width] != Shape(z)[|coord|..] then Failure(ShapeMismatch)
    else Success(z.(written := z.written[coord := img]))
  }
}
