/** `CowrieMonitor._detect_log_rotation` (integrated_final/cowrie_dashboard.py):
    from the size and inode of the log file, decide whether it was truncated
    or replaced since the last read, and where to read from next. The
    `os.stat` call is a parameter: `None` where it raises `OSError`. */
module Rotation {
  import opened Wrappers

  /** `st_ino` and `st_size` */
  datatype FileStat = FileStat(inode: int, size: int)

  /** `last_position` and `_last_inode` */
  datatype Tracking = Tracking(position: int, inode: Option<int>)

  /** Rotation: the file is shorter than the read position, or a file seen
      before was replaced by one with another inode. */
  predicate Rotated(t: Tracking, st: FileStat) {
    st.size < t.position || (t.inode.Some? && st.inode != t.inode.value)
  }

  /** `_detect_log_rotation()`: the new tracking and whether the file was
      rotated. A failed `stat` changes nothing and reports no rotation. On a
      rotation reading starts over at 0; otherwise the position is kept. The
      inode of a file that could be examined is remembered. */
  function DetectRotation(t: Tracking, stat: Option<FileStat>): (r: (Tracking, bool))
    ensures r.1 <==> stat.Some? && Rotated(t, stat.value)
    ensures stat.None? ==> r.0 == t
    ensures stat.Some? ==> r.0.inode == Some(stat.value.inode)
    ensures r.0.position == if r.1 then 0 else t.position
  {
    match stat
    case None => (t, false)
    case Some(st) =>
      if st.size < t.position then (Tracking(0, Some(st.inode)), true)
      else if t.inode.Some? && st.inode != t.inode.value then (Tracking(0, Some(st.inode)), true)
      else (Tracking(t.position, Some(st.inode)), false)
  }

  /** After a check against a file, the read position lies within it. */
  lemma PositionWithinFile(t: Tracking, st: FileStat)
    requires st.size >= 0
    ensures DetectRotation(t, Some(st)).0.position <= st.size
  {
  }

  /** Checking the same file again reports no rotation and changes
      nothing: a rotation is reported once. */
  lemma DetectOnce(t: Tracking, st: FileStat)
    requires st.size >= 0
    ensures var t1 := DetectRotation(t, Some(st)).0;
      DetectRotation(t1, Some(st)) == (t1, false)
  {
  }

  /** The first check of a file whose inode is not known yet reports a
      rotation only if the file is shorter than the read position. */
  lemma FirstCheck(position: int, st: FileStat)
    ensures DetectRotation(Tracking(position, None), Some(st)).1 <==> st.size < position
  {
  }
}
