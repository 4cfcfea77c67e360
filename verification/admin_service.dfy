/** The moderation queue of internal/service/admin.go. The tool, course and project
    repositories behind it return fixed sample rows; here each is a parameter mapping
    `(cursor, limit)` to its answer. */
module AdminService {
  import opened Results

  /** The three `GetPending(ctx, cursor, limit)` repository methods. */
  datatype PendingSources<Item> = PendingSources(
    tool: (int, int) -> Result<seq<Item>>,
    course: (int, int) -> Result<seq<Item>>,
    project: (int, int) -> Result<seq<Item>>)

  /** The `{total, cursor, data}` envelope. */
  datatype Page<Item> = Page(total: int, cursor: int, data: seq<Item>)

  const ToolKey: string := "工具"
  const CourseKey: string := "课程"
  const ProjectKey: string := "项目"
  const CommentKey: string := "评论"

  /** The repository answer `GetPending` takes, keyed on the item type; comments and
      unknown types have no repository and yield no data. */
  function PendingData<Item>(src: PendingSources<Item>, itemType: string, cursor: int, limit: int): Result<seq<Item>>
  {
    if itemType == ToolKey then src.tool(cursor, limit)
    else if itemType == CourseKey then src.course(cursor, limit)
    else if itemType == ProjectKey then src.project(cursor, limit)
    else if itemType == CommentKey then Ok([])
    else Ok([])
  }

  function GetPending<Item>(src: PendingSources<Item>, itemType: string, cursor: int, limit: int,
                            sort: string): (r: Result<Page<Item>>)
    ensures r.Ok? ==> r.value.total == |r.value.data| && r.value.cursor == cursor
    ensures itemType == ToolKey ==>
      (src.tool(cursor, limit).Ok? ==> r.Ok? && r.value.data == src.tool(cursor, limit).value)
    ensures itemType == CourseKey ==>
      (src.course(cursor, limit).Ok? ==> r.Ok? && r.value.data == src.course(cursor, limit).value)
    ensures itemType == ProjectKey ==>
      (src.project(cursor, limit).Ok? ==> r.Ok? && r.value.data == src.project(cursor, limit).value)
    ensures itemType != ToolKey && itemType != CourseKey && itemType != ProjectKey ==>
      r == Ok(Page(0, cursor, []))
    ensures itemType == ToolKey && src.tool(cursor, limit).Err? ==> r == Err(src.tool(cursor, limit).message)
    ensures itemType == CourseKey && src.course(cursor, limit).Err? ==> r == Err(src.course(cursor, limit).message)
    ensures itemType == ProjectKey && src.project(cursor, limit).Err? ==> r == Err(src.project(cursor, limit).message)
  {
    var data := PendingData(src, itemType, cursor, limit);
    if data.Err? then Err(data.message)
    else Ok(Page(|data.value|, cursor, data.value))
  }

  /** Each family key consults its own repository and no other: two sets of
      repositories that agree on that one answer give the same page. */
  lemma GetPendingReadsOneRepository<Item>(a: PendingSources<Item>, b: PendingSources<Item>,
                                           cursor: int, limit: int, sort: string)
    ensures a.tool(cursor, limit) == b.tool(cursor, limit) ==>
      GetPending(a, ToolKey, cursor, limit, sort) == GetPending(b, ToolKey, cursor, limit, sort)
    ensures a.course(cursor, limit) == b.course(cursor, limit) ==>
      GetPending(a, CourseKey, cursor, limit, sort) == GetPending(b, CourseKey, cursor, limit, sort)
    ensures a.project(cursor, limit) == b.project(cursor, limit) ==>
      GetPending(a, ProjectKey, cursor, limit, sort) == GetPending(b, ProjectKey, cursor, limit, sort)
  {
  }

  /** The `sort` argument is ignored. */
  lemma GetPendingIgnoresSort<Item>(src: PendingSources<Item>, itemType: string, cursor: int, limit: int,
                                    sort1: string, sort2: string)
    ensures GetPending(src, itemType, cursor, limit, sort1) == GetPending(src, itemType, cursor, limit, sort2)
  {
  }

  /** Review decisions are not implemented: every call succeeds and changes nothing. */
  function ReviewItem(itemId: string, action: string, rejectReason: string): (r: Result<()>)
    ensures r.Ok?
  {
    Ok(())
  }
}
