/**
 * The closed sets of string values the chat's records use, declared alike
 * by the shared schema (shared/schema.ts) and by the older client's types
 * (src/types/index.ts).
 */
module Kinds {
  /** `'online' | 'away' | 'offline'`. */
  datatype Status = Online | Away | Offline
  /** `'text' | 'image' | 'file'`. */
  datatype MessageType = Text | Image | File
  /** `'public' | 'private' | 'direct'`. */
  datatype RoomType = Public | Private | Direct
  /** `'light' | 'dark'`. */
  datatype Theme = Light | Dark
}
