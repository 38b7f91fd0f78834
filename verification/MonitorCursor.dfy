/**
 * The cursors of the monitor command against the notification ids of the run store.
 */
module MonitorCursor {
  import opened StoreProtocol
  import opened NotificationIds
  import opened MonitorCommand

  /**
   * A cursor is a valid notification id exactly when the store can have rendered it, from a
   * sequence number of at most twenty digits and a ULID.
   */
  lemma CursorIsRendered(since: string)
    ensures ValidNotificationId(since)
       <==> exists id: NotificationId :: id.seqNo < SEQ_LIMIT && ValidRunId(id.stamp) && Render(id) == since
  {
    RenderedIff(since);
    if ValidNotificationId(since) {
      assert forall i :: 0 <= i < 20 ==> since[..20][i] in since[..20];
      var id: NotificationId :| id.seqNo < SEQ_LIMIT && Render(id) == since;
      RenderReads(id);
    }
    if id: NotificationId :| id.seqNo < SEQ_LIMIT && ValidRunId(id.stamp) && Render(id) == since {
      RenderReads(id);
    }
  }
}
