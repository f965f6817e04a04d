/** The catalogue-driven piece factory of the refactored game: building a
    piece of a named type, drawing a random one, rotating through a type's
    shape list, moving, and the read-only queries about a type (size,
    configuration check, preview). The factory's two fields, the type list
    and the shape cache, are the `Catalogue` value the pure operations read. */
module Factory {
  import opened Wrappers
  import opened Cells
  import opened State

  /** One catalogue entry. Either key ("shapes", "color") may be missing
      from the configuration, hence the options. */
  datatype PieceConfig = PieceConfig(shapes: Option<seq<Grid>>, color: Option<int>)

  /** The type list in its configured order and the per-type entries. */
  datatype Catalogue = Catalogue(types: seq<string>, cache: map<string, PieceConfig>)

  /** The exceptions the factory raises: `ValueError` for an unknown type
      or rotation direction, `RuntimeError` for a missing key or an empty
      shape list or an empty type list, and the `ZeroDivisionError` that
      rotating a type with no shapes lets escape. */
  datatype FactoryError =
    | UnknownType(kind: string)
    | InvalidDirection(direction: string)
    | CreationFailed(kind: string)
    | RotationFailed(kind: string)
    | NoPieceTypes
    | NoRotations(kind: string)

  /** The shape list of a known type whose entry has one. */
  predicate HasShapes(cat: Catalogue, kind: string) {
    kind in cat.cache && cat.cache[kind].shapes.Some?
  }

  /** A type can be built: its entry has a nonempty shape list and a colour. */
  predicate Buildable(cat: Catalogue, kind: string) {
    HasShapes(cat, kind) && |cat.cache[kind].shapes.value| > 0 && cat.cache[kind].color.Some?
  }

  // ---------------------------------------------------------------------
  // Building and moving pieces

  /** `create_piece`: the first shape of the type at the spawn position,
      rotation 0, in the configured colour. */
  function CreatePiece(cat: Catalogue, kind: string): (r: Result<TetrominoState, FactoryError>)
    ensures kind !in cat.cache ==> r == Err(UnknownType(kind))
    ensures kind in cat.cache && !Buildable(cat, kind) ==> r == Err(CreationFailed(kind))
    ensures r.Ok? <==> Buildable(cat, kind)
    ensures r.Ok? ==>
      && r.value.shapeType == kind
      && (r.value.x, r.value.y) == SpawnPosition(kind)
      && r.value.rotation == 0
      && r.value.shape == cat.cache[kind].shapes.value[0]
      && r.value.color == cat.cache[kind].color.value
  {
    if kind !in cat.cache then Err(UnknownType(kind))
    else
      var config := cat.cache[kind];
      if config.shapes.None? || config.color.None? || |config.shapes.value| == 0 then
        Err(CreationFailed(kind))
      else
        Ok(TetrominoState(kind, 3, 0, 0, config.shapes.value[0], config.color.value))
  }

  /** `create_random_piece`, with the random choice as the index `roll`
      into the type list (taken modulo its length). */
  function CreateRandomPiece(cat: Catalogue, roll: nat): (r: Result<TetrominoState, FactoryError>)
    ensures cat.types == [] ==> r == Err(NoPieceTypes)
    ensures cat.types != [] ==> r == CreatePiece(cat, cat.types[roll % |cat.types|])
    ensures r.Ok? ==> r.value.shapeType in cat.types
  {
    if cat.types == [] then Err(NoPieceTypes)
    else CreatePiece(cat, cat.types[roll % |cat.types|])
  }

  /** Every listed type is what some roll draws. */
  lemma RandomPieceReachesEveryType(cat: Catalogue, i: int)
    requires 0 <= i < |cat.types|
    ensures CreateRandomPiece(cat, i) == CreatePiece(cat, cat.types[i])
  {
  }

  /** `get_spawn_position`: the same cell for every type. */
  function SpawnPosition(kind: string): (pos: (int, int))
    ensures pos.1 == 0 && 0 <= pos.0 < 10 - 3
  {
    (3, 0)
  }

  /** `move_piece`: a copy shifted by (dx, dy). */
  function MovePiece(piece: TetrominoState, dx: int, dy: int): (m: TetrominoState)
    ensures m.x - piece.x == dx && m.y - piece.y == dy
    ensures m.(x := piece.x, y := piece.y) == piece
  {
    piece.(x := piece.x + dx, y := piece.y + dy)
  }

  /** Moves compose, and a move is undone by the opposite move. */
  lemma MoveComposes(piece: TetrominoState, dx1: int, dy1: int, dx2: int, dy2: int)
    ensures MovePiece(MovePiece(piece, dx1, dy1), dx2, dy2) == MovePiece(piece, dx1 + dx2, dy1 + dy2)
    ensures MovePiece(MovePiece(piece, dx1, dy1), -dx1, -dy1) == piece
  {
  }

  // ---------------------------------------------------------------------
  // Rotation

  /** The rotation index one step in `direction` among `n` states, with
      Python's `%` (the result lies in 0..n-1 for positive n): from an
      index in range, right steps up and wraps from n-1 to 0, left steps
      down and wraps from 0 to n-1. */
  function NextRotation(rotation: int, direction: string, n: int): (k: int)
    requires n > 0
    ensures 0 <= k < n
    ensures 0 <= rotation < n && direction == "right" ==> k == if rotation == n - 1 then 0 else rotation + 1
    ensures 0 <= rotation < n && direction != "right" ==> k == if rotation == 0 then n - 1 else rotation - 1
  {
    if direction == "right" then (rotation + 1) % n else (rotation - 1) % n
  }

  /** `rotate_piece`: the next or previous shape of the type's list, with
      type, position and colour kept. */
  function RotatePiece(cat: Catalogue, piece: TetrominoState, direction: string): (r: Result<TetrominoState, FactoryError>)
    ensures direction != "left" && direction != "right" ==> r == Err(InvalidDirection(direction))
    ensures (direction == "left" || direction == "right") && !HasShapes(cat, piece.shapeType) ==>
      r == Err(RotationFailed(piece.shapeType))
    ensures r.Ok? <==>
      (direction == "left" || direction == "right") && HasShapes(cat, piece.shapeType) &&
      |cat.cache[piece.shapeType].shapes.value| > 0
    ensures r.Ok? ==>
      var shapes := cat.cache[piece.shapeType].shapes.value;
      && r.value == piece.(rotation := r.value.rotation, shape := r.value.shape)
      && r.value.rotation == NextRotation(piece.rotation, direction, |shapes|)
      && r.value.shape == shapes[r.value.rotation]
  {
    if direction != "left" && direction != "right" then Err(InvalidDirection(direction))
    else if !HasShapes(cat, piece.shapeType) then Err(RotationFailed(piece.shapeType))
    else
      var shapes := cat.cache[piece.shapeType].shapes.value;
      if |shapes| == 0 then Err(NoRotations(piece.shapeType))
      else
        var k := NextRotation(piece.rotation, direction, |shapes|);
        Ok(piece.(rotation := k, shape := shapes[k]))
  }

  /** A piece whose rotation index is in range and whose shape is the one
      that index names, as every piece the factory builds or rotates is. */
  predicate InCatalogue(cat: Catalogue, piece: TetrominoState) {
    HasShapes(cat, piece.shapeType) &&
    0 <= piece.rotation < |cat.cache[piece.shapeType].shapes.value| &&
    piece.shape == cat.cache[piece.shapeType].shapes.value[piece.rotation]
  }

  lemma CreatedAndRotatedInCatalogue(cat: Catalogue, kind: string, piece: TetrominoState, direction: string)
    ensures CreatePiece(cat, kind).Ok? ==> InCatalogue(cat, CreatePiece(cat, kind).value)
    ensures RotatePiece(cat, piece, direction).Ok? ==> InCatalogue(cat, RotatePiece(cat, piece, direction).value)
  {
  }

  /** `k` rotations in the same direction, stopping at the first error. */
  function RotateTimes(cat: Catalogue, piece: TetrominoState, direction: string, k: nat): Result<TetrominoState, FactoryError>
    decreases k
  {
    if k == 0 then Ok(piece)
    else match RotatePiece(cat, piece, direction)
      case Err(e) => Err(e)
      case Ok(p) => RotateTimes(cat, p, direction, k - 1)
  }

  /** Rotating right k times advances the index by k (mod n). */
  lemma {:induction false} RotateRightTimes(cat: Catalogue, piece: TetrominoState, k: nat)
    requires InCatalogue(cat, piece)
    decreases k
    ensures var n := |cat.cache[piece.shapeType].shapes.value|;
      var i := (piece.rotation + k) % n;
      RotateTimes(cat, piece, "right", k) ==
        Ok(piece.(rotation := i, shape := cat.cache[piece.shapeType].shapes.value[i]))
  {
    var shapes := cat.cache[piece.shapeType].shapes.value;
    var n := |shapes|;
    var r := piece.rotation;
    if k == 0 {
      assert r % n == r;
    } else {
      var p := RotatePiece(cat, piece, "right").value;
      RotateRightTimes(cat, p, k - 1);
      if r + 1 == n {
        ModShift(k - 1, n);
        assert (p.rotation + (k - 1)) % n == (r + k) % n;
      } else {
        assert p.rotation == r + 1;
      }
    }
  }

  /** Rotating right once per shape in the list is the identity. */
  lemma RotateRightCycle(cat: Catalogue, piece: TetrominoState)
    requires InCatalogue(cat, piece)
    ensures RotateTimes(cat, piece, "right", |cat.cache[piece.shapeType].shapes.value|) == Ok(piece)
  {
    var shapes := cat.cache[piece.shapeType].shapes.value;
    var n := |shapes|;
    var i := (piece.rotation + n) % n;
    ModShift(piece.rotation, n);
    assert i == piece.rotation;
    assert piece.(rotation := i, shape := shapes[i]) == piece;
    RotateRightTimes(cat, piece, n);
  }

  /** Left then right, and right then left, give back the piece. */
  lemma RotateLeftRightInverse(cat: Catalogue, piece: TetrominoState)
    requires InCatalogue(cat, piece)
    ensures RotatePiece(cat, RotatePiece(cat, piece, "left").value, "right") == Ok(piece)
    ensures RotatePiece(cat, RotatePiece(cat, piece, "right").value, "left") == Ok(piece)
  {
  }

  // Euclidean remainder facts for the rotation arithmetic.

  lemma ModShift(k: int, n: int)
    requires n > 0
    ensures (n + k) % n == k % n
  {
    var q, m := k / n, k % n;
    assert k == q * n + m && 0 <= m < n;
    assert n + k == (q + 1) * n + m;
    ModUnique(n + k, n, q + 1, m);
  }

  lemma ModUnique(x: int, n: int, q: int, m: int)
    requires n > 0 && 0 <= m < n && x == q * n + m
    ensures x % n == m
  {
    var q2, m2 := x / n, x % n;
    assert x == q2 * n + m2 && 0 <= m2 < n;
    assert (q - q2) * n == m2 - m;
    if q != q2 {
      MulAtLeast(if q > q2 then q - q2 else q2 - q, n);
      assert false;
    }
  }

  lemma {:induction false} MulAtLeast(a: int, n: int)
    requires a >= 1 && n > 0
    ensures a * n >= n
  {
    if a > 1 {
      MulAtLeast(a - 1, n);
      assert a * n == (a - 1) * n + n;
    }
  }

  // ---------------------------------------------------------------------
  // Queries about a type

  /** `get_piece_size`: (width, height) of the first shape, or (4, 4) when
      the type is unknown or has no first shape. */
  function PieceSize(cat: Catalogue, kind: string): (size: (int, int))
    ensures !HasShapes(cat, kind) || cat.cache[kind].shapes.value == [] ==> size == (4, 4)
    ensures HasShapes(cat, kind) && cat.cache[kind].shapes.value != [] ==>
      var first := cat.cache[kind].shapes.value[0];
      size.1 == |first| && size.0 == (if first == [] then 0 else |first[0]|)
    ensures size.0 >= 0 && size.1 >= 0
  {
    if !HasShapes(cat, kind) || cat.cache[kind].shapes.value == [] then (4, 4)
    else
      var shape := cat.cache[kind].shapes.value[0];
      (if shape == [] then 0 else |shape[0]|, |shape|)
  }

  /** The size reported for a buildable type is that of the piece built. */
  lemma SizeOfCreatedPiece(cat: Catalogue, kind: string)
    requires CreatePiece(cat, kind).Ok?
    ensures var p := CreatePiece(cat, kind).value;
      PieceSize(cat, kind) == (if p.shape == [] then 0 else |p.shape[0]|, |p.shape|)
  {
  }

  /** A shape of four rows of four cells, each 0 or 1. */
  predicate ShapeOk(shape: Grid) {
    |shape| == 4 &&
    forall r :: 0 <= r < 4 ==> |shape[r]| == 4 && forall c :: 0 <= c < 4 ==> shape[r][c] == 0 || shape[r][c] == 1
  }

  /** What `validate_piece_configuration` accepts: a known type whose
      entry has both keys, a nonempty list of well-formed shapes and a
      colour in 1..9. */
  predicate ValidConfig(cat: Catalogue, kind: string) {
    kind in cat.cache &&
    var config := cat.cache[kind];
    config.shapes.Some? && config.color.Some? && |config.shapes.value| > 0 &&
    (forall i :: 0 <= i < |config.shapes.value| ==> ShapeOk(config.shapes.value[i])) &&
    1 <= config.color.value <= 9
  }

  /** A valid entry builds, and the piece is 4 x 4. */
  lemma ValidConfigBuilds(cat: Catalogue, kind: string)
    requires ValidConfig(cat, kind)
    ensures CreatePiece(cat, kind).Ok?
    ensures PieceSize(cat, kind) == (4, 4)
    ensures ShapeOk(CreatePiece(cat, kind).value.shape)
  {
    assert ShapeOk(cat.cache[kind].shapes.value[0]);
  }

  /** In a well-formed shape the source's start values 4 for the minima
      exceed every occupied row and column, so its scan finds the minimal
      box, and that box lies inside the shape. */
  lemma ValidShapePreviewMinimal(shape: Grid, r0: int, r1: int, c0: int, c1: int)
    requires ShapeOk(shape)
    requires ScanBounds(shape, 4, 4, r0, r1, c0, c1)
    requires 0 <= r0 <= r1 < |shape| && 0 <= c0 <= c1
    ensures MinimalBox(shape, r0, r1, c0, c1)
    ensures BoxInside(shape, r0, r1, c0, c1)
  {
    ScanBoundsMinimal(shape, 4, 4, r0, r1, c0, c1);
    var r :| Filled(shape, r, c1);
    assert c1 < |shape[r]| == 4;
    forall row | r0 <= row <= r1
      ensures c1 < |shape[row]|
    {
      assert |shape[row]| == 4;
    }
  }

  /** The longest row of a shape. */
  function MaxRowLength(shape: Grid): (w: nat)
    ensures forall r :: 0 <= r < |shape| ==> |shape[r]| <= w
  {
    if shape == [] then 0
    else
      var rest := MaxRowLength(shape[1..]);
      assert forall r :: 1 <= r < |shape| ==> shape[r] == shape[1..][r - 1];
      if |shape[0]| > rest then |shape[0]| else rest
  }

  // ---------------------------------------------------------------------
  // The built-in catalogue used when the configuration cannot be read

  const FallbackI0: Grid := [[0,0,0,0], [1,1,1,1], [0,0,0,0], [0,0,0,0]]
  const FallbackI1: Grid := [[0,0,1,0], [0,0,1,0], [0,0,1,0], [0,0,1,0]]
  const FallbackO0: Grid := [[0,1,1,0], [0,1,1,0], [0,0,0,0], [0,0,0,0]]
  const FallbackT0: Grid := [[0,1,0,0], [1,1,1,0], [0,0,0,0], [0,0,0,0]]
  const FallbackT1: Grid := [[0,1,0,0], [0,1,1,0], [0,1,0,0], [0,0,0,0]]
  const FallbackT2: Grid := [[0,0,0,0], [1,1,1,0], [0,1,0,0], [0,0,0,0]]
  const FallbackT3: Grid := [[0,1,0,0], [1,1,0,0], [0,1,0,0], [0,0,0,0]]

  const FallbackCatalogue := Catalogue(
    ["I", "O", "T"],
    map[
      "I" := PieceConfig(Some([FallbackI0, FallbackI1]), Some(6)),
      "O" := PieceConfig(Some([FallbackO0]), Some(3)),
      "T" := PieceConfig(Some([FallbackT0, FallbackT1, FallbackT2, FallbackT3]), Some(5))])

  /** Every fallback type passes the configuration check, with 2, 1 and 4
      rotation states. */
  lemma FallbackCatalogueValid()
    ensures forall t :: t in FallbackCatalogue.types ==> ValidConfig(FallbackCatalogue, t)
    ensures forall t :: t in FallbackCatalogue.cache <==> t in FallbackCatalogue.types
    ensures |FallbackCatalogue.cache["I"].shapes.value| == 2
    ensures |FallbackCatalogue.cache["O"].shapes.value| == 1
    ensures |FallbackCatalogue.cache["T"].shapes.value| == 4
  {
    var cat := FallbackCatalogue;
    assert ShapeOk(FallbackI0) && ShapeOk(FallbackI1) && ShapeOk(FallbackO0);
    assert ShapeOk(FallbackT0) && ShapeOk(FallbackT1) && ShapeOk(FallbackT2) && ShapeOk(FallbackT3);
    assert ValidConfig(cat, "I") && ValidConfig(cat, "O") && ValidConfig(cat, "T");
  }

  /** The O piece's preview is its 2 x 2 block of ones: whatever box the
      preview scan reports for the O shape is rows 0..1, columns 1..2. */
  lemma FallbackOPreview(r0: int, r1: int, c0: int, c1: int)
    requires ScanBounds(FallbackO0, 4, 4, r0, r1, c0, c1)
    requires 0 <= r0 <= r1 < 4 && 0 <= c0 <= c1
    ensures r0 == 0 && r1 == 1 && c0 == 1 && c1 == 2
    ensures BoxInside(FallbackO0, r0, r1, c0, c1) && Crop(FallbackO0, r0, r1, c0, c1) == [[1, 1], [1, 1]]
  {
    assert Filled(FallbackO0, 0, 1) && Filled(FallbackO0, 1, 2);
    assert ShapeOk(FallbackO0);
    ValidShapePreviewMinimal(FallbackO0, r0, r1, c0, c1);
    var a :| Filled(FallbackO0, r1, a);
    var b :| Filled(FallbackO0, b, c0);
    var d :| Filled(FallbackO0, d, c1);
    var e :| Filled(FallbackO0, r0, e);
    assert r0 == 0 && r1 == 1 && c0 == 1 && c1 == 2;
    var crop := Crop(FallbackO0, 0, 1, 1, 2);
    assert crop[0] == [1, 1] && crop[1] == [1, 1];
  }

  // ---------------------------------------------------------------------
  // A tall shape the preview start values do not fit

  /** Six rows of one cell with only the bottom one occupied. */
  const TallShape: Grid := [[0], [0], [0], [0], [0], [1]]

  /** With the minima starting at 4, the scan over the tall shape reports
      row 4 as the top of the box although row 4 is empty: the preview is
      `[[0], [1]]` instead of the minimal `[[1]]`. */
  lemma TallShapePreview(r0: int, r1: int, c0: int, c1: int)
    requires ScanBounds(TallShape, 4, 4, r0, r1, c0, c1)
    ensures r0 == 4 && r1 == 5 && c0 == 0 && c1 == 0
    ensures !MinimalBox(TallShape, r0, r1, c0, c1)
    ensures Crop(TallShape, r0, r1, c0, c1) == [[0], [1]]
    ensures MinimalBox(TallShape, 5, 5, 0, 0) && Crop(TallShape, 5, 5, 0, 0) == [[1]]
  {
    assert Filled(TallShape, 5, 0);
    assert forall r, c :: Filled(TallShape, r, c) ==> r == 5 && c == 0;
    assert forall c :: !Filled(TallShape, r0, c);
    var a :| Filled(TallShape, r1, a);
    var b :| Filled(TallShape, b, c1);
    assert r0 == 4 && r1 == 5 && c0 == 0 && c1 == 0;
    assert !Filled(TallShape, 4, 0);
    assert !exists c :: Filled(TallShape, 4, c);
    var crop := Crop(TallShape, 4, 5, 0, 0);
    assert crop[0] == [0] && crop[1] == [1];
    var top := Crop(TallShape, 5, 5, 0, 0);
    assert top[0] == [1];
  }

  // ---------------------------------------------------------------------
  // The factory object

  class TetrominoFactory {
    var pieceTypes: seq<string>
    var shapesCache: map<string, PieceConfig>

    function View(): Catalogue
      reads this
    {
      Catalogue(pieceTypes, shapesCache)
    }

    /** A factory with no types until a catalogue is loaded. */
    constructor()
      ensures View() == Catalogue([], map[])
    {
      pieceTypes := [];
      shapesCache := map[];
    }

    /** `_load_fallback_pieces`: install the built-in catalogue. */
    method LoadFallbackPieces()
      modifies this
      ensures View() == FallbackCatalogue
    {
      pieceTypes := FallbackCatalogue.types;
      shapesCache := FallbackCatalogue.cache;
    }

    /** `_load_piece_configurations`: take the configured type list
      (`None` when reading it fails) and cache each type's entry from
      `table`; a type the table lacks raises, and any failure installs the
      built-in catalogue instead. */
    method LoadPieceConfigurations(types: Option<seq<string>>, table: map<string, PieceConfig>)
      modifies this
      ensures types.None? || (exists t :: t in types.value && t !in table) ==> View() == FallbackCatalogue
      ensures types.Some? && (forall t :: t in types.value ==> t in table) ==>
        && pieceTypes == types.value
        && (forall t :: t in shapesCache <==> t in old(shapesCache) || t in types.value)
        && (forall t :: t in types.value ==> shapesCache[t] == table[t])
        && (forall t :: t in old(shapesCache) && t !in types.value ==> shapesCache[t] == old(shapesCache)[t])
    {
      if types.None? {
        LoadFallbackPieces();
        return;
      }
      var list := types.value;
      pieceTypes := list;
      var i := 0;
      while i < |list|
        invariant 0 <= i <= |list|
        invariant pieceTypes == list
        invariant forall t :: t in list[..i] ==> t in table
        invariant forall t :: t in shapesCache <==> t in old(shapesCache) || t in list[..i]
        invariant forall t :: t in list[..i] ==> shapesCache[t] == table[t]
        invariant forall t :: t in old(shapesCache) && t !in list[..i] ==> shapesCache[t] == old(shapesCache)[t]
      {
        if list[i] !in table {
          LoadFallbackPieces();
          return;
        }
        assert list[..i + 1] == list[..i] + [list[i]];
        shapesCache := shapesCache[list[i] := table[list[i]]];
        i := i + 1;
      }
      assert list[..i] == list;
    }

    /** `validate_piece_configuration`, as the source's nested loops over
        shapes, rows and cells. */
    method ValidatePieceConfiguration(kind: string) returns (ok: bool)
      ensures ok == ValidConfig(View(), kind)
    {
      if kind !in shapesCache {
        return false;
      }
      var config := shapesCache[kind];
      if config.shapes.None? || config.color.None? {
        return false;
      }
      var shapes := config.shapes.value;
      if |shapes| == 0 {
        return false;
      }
      var i := 0;
      while i < |shapes|
        invariant 0 <= i <= |shapes|
        invariant forall k :: 0 <= k < i ==> ShapeOk(shapes[k])
      {
        var shape := shapes[i];
        if |shape| != 4 {
          return false;
        }
        var r := 0;
        while r < 4
          invariant 0 <= r <= 4
          invariant forall rr :: 0 <= rr < r ==>
            |shape[rr]| == 4 && forall c :: 0 <= c < 4 ==> shape[rr][c] == 0 || shape[rr][c] == 1
        {
          var row := shape[r];
          if |row| != 4 {
            return false;
          }
          var c := 0;
          while c < 4
            invariant 0 <= c <= 4
            invariant forall cc :: 0 <= cc < c ==> row[cc] == 0 || row[cc] == 1
          {
            if row[c] != 0 && row[c] != 1 {
              return false;
            }
            c := c + 1;
          }
          r := r + 1;
        }
        i := i + 1;
      }
      var color := config.color.value;
      ok := 1 <= color <= 9;
    }

    /** `get_piece_preview`: the bounding box of the type's first shape
        cropped out, as the source computes it with the minima starting at
        4; `[[0]]` for an unknown type or a shape with no occupied cell,
        and the source's `[[1]]` fallback when a key is missing, the shape
        list is empty or the copy runs past a short row. The ghost outputs
        are the box cropped. */
    method GetPiecePreview(kind: string)
      returns (preview: Grid, ghost r0: int, ghost r1: int, ghost c0: int, ghost c1: int)
      ensures kind !in shapesCache ==> preview == [[0]]
      ensures kind in shapesCache && (shapesCache[kind].shapes.None? || shapesCache[kind].shapes.value == []) ==>
        preview == [[1]]
      ensures HasShapes(View(), kind) && shapesCache[kind].shapes.value != [] ==>
        var shape := shapesCache[kind].shapes.value[0];
        && (!HasFilled(shape) ==> preview == [[0]])
        && (HasFilled(shape) ==>
              && ScanBounds(shape, 4, 4, r0, r1, c0, c1)
              && 0 <= r0 <= r1 < |shape| && 0 <= c0 <= c1
              && preview == if BoxInside(shape, r0, r1, c0, c1) then Crop(shape, r0, r1, c0, c1) else [[1]])
    {
      r0, r1, c0, c1 := 0, 0, 0, 0;
      if kind !in shapesCache {
        return [[0]], r0, r1, c0, c1;
      }
      var config := shapesCache[kind];
      if config.shapes.None? || config.shapes.value == [] {
        return [[1]], r0, r1, c0, c1;
      }
      var cropped;
      cropped, r0, r1, c0, c1 := CropPreview(config.shapes.value[0], 4, 4);
      preview := if cropped.Some? then cropped.value else [[1]];
    }

    /** The preview with the minima starting past every row and column of
        the shape, so that the box found is the minimal one for shapes of
        any size. */
    method GetMinimalPiecePreview(kind: string)
      returns (preview: Grid, ghost r0: int, ghost r1: int, ghost c0: int, ghost c1: int)
      ensures kind !in shapesCache ==> preview == [[0]]
      ensures kind in shapesCache && (shapesCache[kind].shapes.None? || shapesCache[kind].shapes.value == []) ==>
        preview == [[1]]
      ensures HasShapes(View(), kind) && shapesCache[kind].shapes.value != [] ==>
        var shape := shapesCache[kind].shapes.value[0];
        && (!HasFilled(shape) ==> preview == [[0]])
        && (HasFilled(shape) ==>
              && MinimalBox(shape, r0, r1, c0, c1)
              && 0 <= r0 <= r1 < |shape| && 0 <= c0 <= c1
              && preview == if BoxInside(shape, r0, r1, c0, c1) then Crop(shape, r0, r1, c0, c1) else [[1]])
    {
      r0, r1, c0, c1 := 0, 0, 0, 0;
      if kind !in shapesCache {
        return [[0]], r0, r1, c0, c1;
      }
      var config := shapesCache[kind];
      if config.shapes.None? || config.shapes.value == [] {
        return [[1]], r0, r1, c0, c1;
      }
      var shape := config.shapes.value[0];
      var cropped;
      cropped, r0, r1, c0, c1 := CropPreview(shape, |shape|, MaxRowLength(shape));
      if HasFilled(shape) {
        ScanBoundsMinimal(shape, |shape|, MaxRowLength(shape), r0, r1, c0, c1);
      }
      preview := if cropped.Some? then cropped.value else [[1]];
    }
  }
}
