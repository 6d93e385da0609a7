/** HTTP replies of the handlers: a JSON body on success, or a status and the error text. */
module Replies {

  datatype Reply<T> = Ok(body: T) | Err(status: nat, message: string)

  const MsgMissingParams: string := "缺少必要参数"
  const MsgNameTooLong: string := "名字最多20个字"
  const MsgBadImage: string := "无效的图片格式"
  const MsgTooManyPigs: string := "提交太频繁啦，请10分钟后再试（每10分钟最多提交3只猪）"
  const MsgSubmitted: string := "提交成功！"
  const MsgBadId: string := "无效的ID"
  const MsgNoPig: string := "猪不存在"
  const MsgEmptyComment: string := "评论内容不能为空"
  const MsgCommentTooLong: string := "评论最多200字"
  const MsgTooManyComments: string := "评论太频繁啦，请稍后再试（每10分钟最多5条）"
  const MsgCommented: string := "评论成功！"
}
