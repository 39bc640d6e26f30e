/** One in-app delivery, and what reading it does (web/src/modules/notifications/domain/notification.ts). */
module Notifications {
  import opened Options

  type DeliveryId = string

  /** An instant, as its milliseconds since the epoch. */
  type Instant = int

  const NOTIFICATIONS_PAGE_SIZE := 20

  datatype ReadFilter = ALL | UNREAD

  datatype Notification = Notification(
    id: DeliveryId, title: string, body: string, read: bool, sentAt: Option<Instant>, readAt: Option<Instant>)

  function MarkedRead(notification: Notification, at: Instant): Notification {
    if notification.read then notification else notification.(read := true, readAt := Some(at))
  }

  function DecrementedUnread(count: int): int {
    if count - 1 > 0 then count - 1 else 0
  }
}
