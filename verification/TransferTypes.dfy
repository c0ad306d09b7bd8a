// The states of a transfer task, in the order of their numbers, and the roles a
// client can join in.
module TransferTypes {

  datatype State =
    | Invalid | Ready
    | WaitingSender | WaitingReceiver | WaitingTransfer | Transferring | TransferDone
    | WaitingUpload | Uploading | UploadEnd
    | WaitingDownload | Downloading | DownloadEnd
    | Error

  datatype Role = RealtimeSender | RealtimeReceiver | OfflineUpload | OfflineDownload

  // The states whose number is at least that of UploadEnd.
  predicate FromUploadEnd(s: State) {
    s.UploadEnd? || s.WaitingDownload? || s.Downloading? || s.DownloadEnd? || s.Error?
  }
}
