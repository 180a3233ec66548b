/**
 * The notification_task entity: a mutable record whose four nullable
 * references are set one by one through setters. Only `id` is assigned by
 * the store; chatId, message and notificationDateTime are NOT NULL columns,
 * so a stored task always has all three (TaskRow).
 */
module TaskModel {
  import opened Wrappers
  import opened Clock

  /** The three required columns of one stored task. */
  datatype TaskRow = TaskRow(chatId: int, message: string, fireAt: Instant)

  class NotificationTask {
    var id: Option<int>
    var chatId: Option<int>
    var message: Option<string>
    var notificationDateTime: Option<Instant>

    /** `new NotificationTask()`: every field is null. */
    constructor ()
      ensures id == None && chatId == None && message == None && notificationDateTime == None
    {
      id, chatId, message, notificationDateTime := None, None, None, None;
    }

    function GetId(): Option<int> reads this { id }
    function GetChatId(): Option<int> reads this { chatId }
    function GetMessage(): Option<string> reads this { message }
    function GetNotificationDateTime(): Option<Instant> reads this { notificationDateTime }

    method SetId(v: int)
      modifies this
      ensures GetId() == Some(v)
      ensures chatId == old(chatId) && message == old(message)
      ensures notificationDateTime == old(notificationDateTime)
    {
      id := Some(v);
    }

    method SetChatId(v: int)
      modifies this
      ensures GetChatId() == Some(v)
      ensures id == old(id) && message == old(message)
      ensures notificationDateTime == old(notificationDateTime)
    {
      chatId := Some(v);
    }

    method SetMessage(v: string)
      modifies this
      ensures GetMessage() == Some(v)
      ensures id == old(id) && chatId == old(chatId)
      ensures notificationDateTime == old(notificationDateTime)
    {
      message := Some(v);
    }

    method SetNotificationDateTime(v: Instant)
      modifies this
      ensures GetNotificationDateTime() == Some(v)
      ensures id == old(id) && chatId == old(chatId) && message == old(message)
    {
      notificationDateTime := Some(v);
    }

    /** The row that saving this object writes; None when a NOT NULL column
        is still null, which the database refuses. */
    function Row(): (r: Option<TaskRow>)
      reads this
      ensures r.Some? <==> chatId.Some? && message.Some? && notificationDateTime.Some?
      ensures r.Some? ==> && r.value.chatId == chatId.value && r.value.message == message.value
                          && r.value.fireAt == notificationDateTime.value
    {
      if chatId.Some? && message.Some? && notificationDateTime.Some? then
        Some(TaskRow(chatId.value, message.value, notificationDateTime.value))
      else None
    }
  }
}
