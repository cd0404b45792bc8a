/** The work-log entry ("trabajo") shared by every part of the model. */
module Records {

  datatype Option<T> = None | Some(value: T)

  /** One scan or form registration. `id` is absent until the store assigns
      one; `shift` is the text of the shift selector ("T1", "T2", or
      anything else the selector held); `t1`, `t2` and `total` are the
      counter fields written when the entry is built. */
  datatype Work = Work(
    id: Option<int>,
    barcode: string,
    date: string,
    time: string,
    shift: string,
    t1: int,
    t2: int,
    total: int,
    timestamp: string)

  predicate HasId(w: Work, id: int)
  {
    w.id == Some(id)
  }
}
