/** The voxel layer keeps a second grid, one column of voxel bits per cell, and rolls both together. */
module VoxelLayer {
  import opened CostValues
  import opened Arithmetic
  import opened GridIndex
  import opened RollingWindow
  import opened Costmap

  /** VoxelGrid::reset marks all sixteen levels of a column unknown. */
  const UNKNOWN_COLUMN: bv32 := 0xFFFF

  datatype VoxelStatus = Free | Unknown | Marked

  /** VoxelGrid::getVoxel on a column: a level has an unknown bit and, sixteen places up, a marked bit. */
  function GetVoxel(column: bv32, z: nat): VoxelStatus
    requires z < 16
  {
    var unknown, marked := column & ((1 as bv32) << z) != 0, column & ((1 as bv32) << (z + 16)) != 0;
    if unknown && marked then Marked else if unknown || marked then Unknown else Free
  }

  /** A column of the reset grid reads unknown at each of its sixteen levels. */
  lemma ResetIsUnknown(z: nat)
    requires z < 16
    ensures GetVoxel(UNKNOWN_COLUMN, z) == Unknown
  {
  }

  class VoxelLayer {
    var sizeX: nat
    var sizeY: nat
    var resolution: real
    var originX: real
    var originY: real
    var costmap: array<Cost>
    var voxelMap: array<bv32>
    var defaultValue: Cost

    ghost predicate Valid()
      reads this
    {
      resolution > 0.0 && costmap.Length == sizeX * sizeY && voxelMap.Length == sizeX * sizeY
      && costmap as object != voxelMap
    }

    function TheFrame(): Frame
      reads this
    {
      Frame(sizeX, sizeY, resolution, originX, originY)
    }

    constructor (sizeX: nat, sizeY: nat, resolution: real, originX: real, originY: real, defaultValue: Cost)
      requires resolution > 0.0
      ensures Valid() && fresh(costmap) && fresh(voxelMap)
      ensures TheFrame() == Frame(sizeX, sizeY, resolution, originX, originY) && this.defaultValue == defaultValue
      ensures forall k :: 0 <= k < costmap.Length ==> costmap[k] == defaultValue
      ensures forall k :: 0 <= k < voxelMap.Length ==> voxelMap[k] == UNKNOWN_COLUMN
    {
      this.defaultValue := defaultValue;
      this.sizeX, this.sizeY, this.resolution := sizeX, sizeY, resolution;
      this.originX, this.originY := originX, originY;
      costmap := new Cost[Area(sizeX, sizeY)](k => defaultValue);
      voxelMap := new bv32[Area(sizeX, sizeY)](k => UNKNOWN_COLUMN);
    }

    /** VoxelLayer::matchSize: both grids take the master's size and place, and are blank. */
    method MatchSize(sizeX: nat, sizeY: nat, resolution: real, originX: real, originY: real)
      requires resolution > 0.0
      modifies this
      ensures Valid() && fresh(costmap) && fresh(voxelMap) && defaultValue == old(defaultValue)
      ensures TheFrame() == Frame(sizeX, sizeY, resolution, originX, originY)
      ensures forall k :: 0 <= k < costmap.Length ==> costmap[k] == defaultValue
      ensures forall k :: 0 <= k < voxelMap.Length ==> voxelMap[k] == UNKNOWN_COLUMN
    {
      this.sizeX, this.sizeY, this.resolution := sizeX, sizeY, resolution;
      this.originX, this.originY := originX, originY;
      costmap := new Cost[Area(sizeX, sizeY)];
      voxelMap := new bv32[Area(sizeX, sizeY)];
      ResetMaps();
    }

    method ResetMaps()
      requires costmap as object != voxelMap
      modifies costmap, voxelMap
      ensures forall k :: 0 <= k < costmap.Length ==> costmap[k] == defaultValue
      ensures forall k :: 0 <= k < voxelMap.Length ==> voxelMap[k] == UNKNOWN_COLUMN
    {
      forall k | 0 <= k < costmap.Length {
        costmap[k] := defaultValue;
      }
      forall k | 0 <= k < voxelMap.Length {
        voxelMap[k] := UNKNOWN_COLUMN;
      }
    }

    /** VoxelLayer::updateOrigin. */
    method UpdateOrigin(newOriginX: real, newOriginY: real)
      requires Valid()
      modifies this`originX, this`originY, costmap, voxelMap
      ensures Valid()
      ensures var cx, cy := CellOf(newOriginX, old(originX), resolution), CellOf(newOriginY, old(originY), resolution);
        && TheFrame() == old(TheFrame()).Shifted(cx, cy)
        && costmap[..] == Rolled(old(costmap[..]), sizeX, sizeY, cx, cy, defaultValue)
        && voxelMap[..] == Rolled(old(voxelMap[..]), sizeX, sizeY, cx, cy, UNKNOWN_COLUMN)
      ensures -resolution < newOriginX - originX < resolution && -resolution < newOriginY - originY < resolution
      ensures BetweenReals(old(originX), originX, newOriginX) && BetweenReals(old(originY), originY, newOriginY)
    {
      hide CellOf, Rolled, MovedBy;
      var cellOx := CellOf(newOriginX, originX, resolution);
      var cellOy := CellOf(newOriginY, originY, resolution);
      AlignedBetween(newOriginX, originX, resolution);
      AlignedBetween(newOriginY, originY, resolution);
      AlignedWithinCell(newOriginX, originX, resolution);
      AlignedWithinCell(newOriginY, originY, resolution);
      var newGridOx := MovedBy(originX, cellOx, resolution);
      var newGridOy := MovedBy(originY, cellOy, resolution);
      RollBoth(cellOx, cellOy);
      originX := newGridOx;
      originY := newGridOy;
    }

    /** The cell movement of updateOrigin: both grids leave through local copies and come back together. */
    method RollBoth(cellOx: int, cellOy: int)
      requires Valid()
      modifies costmap, voxelMap
      ensures costmap[..] == Rolled(old(costmap[..]), sizeX, sizeY, cellOx, cellOy, defaultValue)
      ensures voxelMap[..] == Rolled(old(voxelMap[..]), sizeX, sizeY, cellOx, cellOy, UNKNOWN_COLUMN)
    {
      hide CopiedRows, Rolled;
      var lowerLeftX, lowerLeftY := LowerLeft(cellOx, sizeX), LowerLeft(cellOy, sizeY);
      var upperRightX, upperRightY := UpperRight(cellOx, sizeX), UpperRight(cellOy, sizeY);
      var cellSizeX: nat, cellSizeY: nat := upperRightX - lowerLeftX, upperRightY - lowerLeftY;
      var localMap := new Cost[Area(cellSizeX, cellSizeY)];
      var localVoxelMap := new bv32[Area(cellSizeX, cellSizeY)];
      ghost var garbage, voxelGarbage := localMap[..], localVoxelMap[..];
      CopyMapRegion(costmap, lowerLeftX, lowerLeftY, sizeX, sizeY, localMap, 0, 0, cellSizeX, cellSizeY,
                    cellSizeX, cellSizeY);
      CopyMapRegion(voxelMap, lowerLeftX, lowerLeftY, sizeX, sizeY, localVoxelMap, 0, 0, cellSizeX, cellSizeY,
                    cellSizeX, cellSizeY);
      ResetMaps();
      ghost var blank, voxelBlank := costmap[..], voxelMap[..];
      var startX, startY := lowerLeftX - cellOx, lowerLeftY - cellOy;
      CopyMapRegion(localMap, 0, 0, cellSizeX, cellSizeY, costmap, startX, startY, sizeX, sizeY,
                    cellSizeX, cellSizeY);
      CopyMapRegion(localVoxelMap, 0, 0, cellSizeX, cellSizeY, voxelMap, startX, startY, sizeX, sizeY,
                    cellSizeX, cellSizeY);
      TwoCopiesRoll(old(costmap[..]), localMap[..], blank, costmap[..], garbage, sizeX, sizeY,
                    cellOx, cellOy, defaultValue);
      TwoCopiesRoll(old(voxelMap[..]), localVoxelMap[..], voxelBlank, voxelMap[..], voxelGarbage, sizeX, sizeY,
                    cellOx, cellOy, UNKNOWN_COLUMN);
    }
  }

  /**
   Rolled together, the cost and the voxel column of a world point stay paired: both are carried
   over from the same old cell, or both are reset.
   */
  lemma RollsInLockstep(f: Frame, a: seq<Cost>, v: seq<bv32>, cx: int, cy: int, d: Cost, wx: real, wy: real)
    requires f.resolution > 0.0 && |a| == f.sizeX * f.sizeY && |v| == f.sizeX * f.sizeY
    requires f.Shifted(cx, cy).WorldToMap(wx, wy).OnMap?
    ensures var m' := f.Shifted(cx, cy).WorldToMap(wx, wy);
      var cost := CellOr(Rolled(a, f.sizeX, f.sizeY, cx, cy, d), f.sizeX, f.sizeY, m'.x, m'.y, d);
      var column := CellOr(Rolled(v, f.sizeX, f.sizeY, cx, cy, UNKNOWN_COLUMN), f.sizeX, f.sizeY, m'.x, m'.y,
                           UNKNOWN_COLUMN);
      if f.Contains(m'.x + cx, m'.y + cy)
      then cost == CellOr(a, f.sizeX, f.sizeY, m'.x + cx, m'.y + cy, d) &&
           column == CellOr(v, f.sizeX, f.sizeY, m'.x + cx, m'.y + cy, UNKNOWN_COLUMN)
      else cost == d && column == UNKNOWN_COLUMN
  {
    hide Idx, Frame.WorldToMap;
    var m' := f.Shifted(cx, cy).WorldToMap(wx, wy);
    RolledAt(a, f.sizeX, f.sizeY, cx, cy, d, m'.x, m'.y);
    RolledAt(v, f.sizeX, f.sizeY, cx, cy, UNKNOWN_COLUMN, m'.x, m'.y);
  }
}
